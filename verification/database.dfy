/** The scan history (core/database.py): two append-only tables, `scans`
    and `ports`, with AUTOINCREMENT ids, held in memory. The SQL engine is
    replaced by the row sequences it stores; the two queries are loops over
    those rows. */
module Database {
  import opened Common
  import Scanner

  /** A row of `scans`: who was scanned and when. */
  datatype ScanRow = ScanRow(id: nat, targetIp: string, scanDate: string)

  /** A row of `ports`: one open port of the scan `scanId`. */
  datatype PortRow = PortRow(id: nat, scanId: nat, portNumber: int, banner: string)

  /** `{p[0] for p in open_ports}`: the port numbers of a result list. */
  function PortSet(results: seq<Scanner.PortResult>): (s: set<int>)
    ensures forall k :: 0 <= k < |results| ==> results[k].port in s
    ensures forall p :: p in s ==> exists k :: 0 <= k < |results| && results[k].port == p
  {
    set r | r in results :: r.port
  }

  /** The ids of the saved scans. */
  function ScanIds(scans: seq<ScanRow>): set<nat> {
    set r | r in scans :: r.id
  }

  // ------------------------------------------------------------ the queries

  /** `SELECT id FROM scans WHERE target_ip = ? ORDER BY id DESC LIMIT 1`:
      no row exactly when the target was never scanned, and otherwise the
      largest id among that target's scans. */
  function LatestScanId(scans: seq<ScanRow>, target: string): (r: Option<nat>)
    ensures r.None? <==> forall k :: 0 <= k < |scans| ==> scans[k].targetIp != target
    ensures r.Some? ==> exists k :: 0 <= k < |scans| && scans[k].targetIp == target && scans[k].id == r.value
    ensures r.Some? ==> forall k :: 0 <= k < |scans| && scans[k].targetIp == target ==> scans[k].id <= r.value
    decreases |scans|
  {
    if scans == [] then None
    else
      var earlier := LatestScanId(scans[..|scans| - 1], target);
      var last := scans[|scans| - 1];
      if last.targetIp != target then earlier
      else match earlier
        case None => Some(last.id)
        case Some(m) => Some(if last.id >= m then last.id else m)
  }

  /** `SELECT port_number FROM ports WHERE scan_id = ?`, collected into a set. */
  function PortsOf(ports: seq<PortRow>, scanId: nat): set<int> {
    set r | r in ports && r.scanId == scanId :: r.portNumber
  }

  /** `get_last_scan_ports`: `None` for a target never scanned, otherwise the
      port set of its most recent scan. */
  function LastPorts(scans: seq<ScanRow>, ports: seq<PortRow>, target: string): Option<set<int>> {
    match LatestScanId(scans, target)
    case None => None
    case Some(id) => Some(PortsOf(ports, id))
  }

  /** The port rows `save_scan_result` inserts: one per result, in order,
      under consecutive row ids, keeping the port and the banner and
      dropping the OS guess. */
  function NewPortRows(firstId: nat, scanId: nat, results: seq<Scanner.PortResult>): (rows: seq<PortRow>)
    ensures |rows| == |results|
    ensures forall k :: 0 <= k < |rows| ==>
              rows[k] == PortRow(firstId + k, scanId, results[k].port, results[k].banner)
  {
    seq(|results|, k requires 0 <= k < |results| =>
          PortRow(firstId + k, scanId, results[k].port, results[k].banner))
  }

  // ---------------------------------------------------- facts about saving

  /** One more row changes the collected set by at most that row's port. */
  lemma PortsOfSnoc(ports: seq<PortRow>, row: PortRow, scanId: nat)
    ensures PortsOf(ports + [row], scanId) ==
            PortsOf(ports, scanId) + (if row.scanId == scanId then {row.portNumber} else {})
  {
    var both := ports + [row];
    forall p | p in PortsOf(both, scanId)
      ensures p in PortsOf(ports, scanId) + (if row.scanId == scanId then {row.portNumber} else {})
    {
      var r :| r in both && r.scanId == scanId && r.portNumber == p;
      if r != row {
        assert r in ports;
      }
    }
    forall p | p in PortsOf(ports, scanId) ensures p in PortsOf(both, scanId) {
      var r :| r in ports && r.scanId == scanId && r.portNumber == p;
      assert r in both;
    }
    if row.scanId == scanId {
      assert row in both;
    }
  }

  /** Rows under an id no existing row uses read back as the saved port set. */
  lemma NewRowsReadBack(ports: seq<PortRow>, firstId: nat, scanId: nat, results: seq<Scanner.PortResult>)
    requires forall r :: r in ports ==> r.scanId != scanId
    ensures PortsOf(ports + NewPortRows(firstId, scanId, results), scanId) == PortSet(results)
  {
    var rows := NewPortRows(firstId, scanId, results);
    var all := ports + rows;
    forall p | p in PortsOf(all, scanId) ensures p in PortSet(results) {
      var r :| r in all && r.scanId == scanId && r.portNumber == p;
      assert r !in ports;
      var k :| 0 <= k < |rows| && rows[k] == r;
      assert results[k].port == p;
    }
    forall p | p in PortSet(results) ensures p in PortsOf(all, scanId) {
      var k :| 0 <= k < |results| && results[k].port == p;
      assert all[|ports| + k] == rows[k];
    }
  }

  /** Rows under a new id leave the port set of any other id as it was. */
  lemma NewRowsElsewhere(ports: seq<PortRow>, firstId: nat, scanId: nat,
                         results: seq<Scanner.PortResult>, other: nat)
    requires other != scanId
    ensures PortsOf(ports + NewPortRows(firstId, scanId, results), other) == PortsOf(ports, other)
  {
    var all := ports + NewPortRows(firstId, scanId, results);
    forall p | p in PortsOf(all, other) ensures p in PortsOf(ports, other) {
      var r :| r in all && r.scanId == other && r.portNumber == p;
    }
  }

  /** The round trip: right after a save for `target`, the last scan of
      `target` is the one just saved, and its port set is the set of the
      saved ports (empty, not `None`, when nothing was open). */
  lemma LastAfterSave(scans: seq<ScanRow>, ports: seq<PortRow>, target: string, date: string,
                      scanId: nat, firstId: nat, results: seq<Scanner.PortResult>)
    requires forall r :: r in scans ==> r.id < scanId
    requires forall r :: r in ports ==> r.scanId != scanId
    ensures LastPorts(scans + [ScanRow(scanId, target, date)],
                      ports + NewPortRows(firstId, scanId, results), target)
            == Some(PortSet(results))
  {
    var after := scans + [ScanRow(scanId, target, date)];
    assert after[..|after| - 1] == scans;
    NewRowsReadBack(ports, firstId, scanId, results);
    match LatestScanId(scans, target)
    case None =>
    case Some(m) =>
      var k :| 0 <= k < |scans| && scans[k].targetIp == target && scans[k].id == m;
      assert scans[k] in scans;
  }

  /** A save for `target` leaves every other target's answer unchanged. */
  lemma OtherTargetsAfterSave(scans: seq<ScanRow>, ports: seq<PortRow>, target: string, date: string,
                              scanId: nat, firstId: nat, results: seq<Scanner.PortResult>, other: string)
    requires forall r :: r in scans ==> r.id < scanId
    requires other != target
    ensures LastPorts(scans + [ScanRow(scanId, target, date)],
                      ports + NewPortRows(firstId, scanId, results), other)
            == LastPorts(scans, ports, other)
  {
    var after := scans + [ScanRow(scanId, target, date)];
    assert after[..|after| - 1] == scans;
    match LatestScanId(scans, other)
    case None =>
    case Some(m) =>
      var k :| 0 <= k < |scans| && scans[k].targetIp == other && scans[k].id == m;
      assert scans[k] in scans;
      NewRowsElsewhere(ports, firstId, scanId, results, m);
  }

  /** The store's invariant: ids grow with insertion order and stay below
      their AUTOINCREMENT counters, and every port row belongs to a saved scan. */
  predicate WellFormed(scans: seq<ScanRow>, ports: seq<PortRow>, nextScanId: nat, nextPortId: nat) {
    && 1 <= nextScanId && 1 <= nextPortId
    && (forall i, j :: 0 <= i < j < |scans| ==> scans[i].id < scans[j].id)
    && (forall r :: r in scans ==> r.id < nextScanId)
    && (forall r :: r in ports ==> r.id < nextPortId)
    && (forall r :: r in ports ==> r.scanId in ScanIds(scans))
  }

  /** A save keeps the invariant, and the new scan id is unused by any
      existing port row. */
  lemma SaveKeepsWellFormed(scans: seq<ScanRow>, ports: seq<PortRow>, nextScanId: nat, nextPortId: nat,
                            target: string, date: string, results: seq<Scanner.PortResult>)
    requires WellFormed(scans, ports, nextScanId, nextPortId)
    ensures forall r :: r in ports ==> r.scanId != nextScanId
    ensures WellFormed(scans + [ScanRow(nextScanId, target, date)],
                       ports + NewPortRows(nextPortId, nextScanId, results),
                       nextScanId + 1, nextPortId + |results|)
  {
    var scans' := scans + [ScanRow(nextScanId, target, date)];
    var rows := NewPortRows(nextPortId, nextScanId, results);
    forall r | r in ports ensures r.scanId != nextScanId {
      var s :| s in scans && s.id == r.scanId;
    }
    assert ScanIds(scans') == ScanIds(scans) + {nextScanId} by {
      forall id | id in ScanIds(scans') ensures id in ScanIds(scans) + {nextScanId} {
        var s :| s in scans' && s.id == id;
        if s != scans'[|scans|] {
          assert s in scans;
        }
      }
      assert scans'[|scans|] in scans';
      forall id | id in ScanIds(scans) ensures id in ScanIds(scans') {
        var s :| s in scans && s.id == id;
        assert s in scans';
      }
    }
    forall i, j | 0 <= i < j < |scans'| ensures scans'[i].id < scans'[j].id {
      if j == |scans| {
        assert scans'[i] in scans;
      }
    }
    forall r | r in ports + rows ensures r.id < nextPortId + |results| && r.scanId in ScanIds(scans') {
      if r !in ports {
        var k :| 0 <= k < |rows| && rows[k] == r;
      }
    }
  }

  // --------------------------------------------------------------- the store

  /** The database file: both tables and their AUTOINCREMENT counters. */
  class ScanStore {
    var scans: seq<ScanRow>
    var ports: seq<PortRow>
    var nextScanId: nat
    var nextPortId: nat

    /** Ids grow with insertion order and stay below their counters, and
        every port row belongs to a saved scan. */
    ghost predicate Valid()
      reads this
    {
      WellFormed(scans, ports, nextScanId, nextPortId)
    }

    /** `initialize_db` on a fresh file: both tables empty, ids start at 1. */
    constructor ()
      ensures Valid()
      ensures scans == [] && ports == []
    {
      scans := [];
      ports := [];
      nextScanId := 1;
      nextPortId := 1;
    }

    /** `save_scan_result`: insert the scan row under a fresh id, then one
        port row per result. Existing rows are kept as they were; reading
        back gives the saved port set for `target` and the old answer for
        every other target. */
    method SaveScanResult(target: string, openPorts: seq<Scanner.PortResult>, scanDate: string)
      returns (scanId: nat)
      requires Valid()
      modifies this
      ensures Valid()
      ensures forall r :: r in old(scans) ==> r.id < scanId
      ensures scans == old(scans) + [ScanRow(scanId, target, scanDate)]
      ensures ports == old(ports) + NewPortRows(old(nextPortId), scanId, openPorts)
      ensures LastPorts(scans, ports, target) == Some(PortSet(openPorts))
      ensures forall u :: u != target ==> LastPorts(scans, ports, u) == old(LastPorts(scans, ports, u))
    {
      scanId := nextScanId;
      ghost var earlier, before, firstId := scans, ports, nextPortId;
      scans := scans + [ScanRow(scanId, target, scanDate)];
      nextScanId := nextScanId + 1;
      InsertPortRows(scanId, openPorts);
      SaveKeepsWellFormed(earlier, before, scanId, firstId, target, scanDate, openPorts);
      LastAfterSave(earlier, before, target, scanDate, scanId, firstId, openPorts);
      forall u | u != target
        ensures LastPorts(scans, ports, u) == LastPorts(earlier, before, u)
      {
        OtherTargetsAfterSave(earlier, before, target, scanDate, scanId, firstId, openPorts, u);
      }
    }

    /** The loop of `save_scan_result`: one INSERT per result under the scan `scanId`. */
    method InsertPortRows(scanId: nat, openPorts: seq<Scanner.PortResult>)
      modifies this`ports, this`nextPortId
      ensures ports == old(ports) + NewPortRows(old(nextPortId), scanId, openPorts)
      ensures nextPortId == old(nextPortId) + |openPorts|
    {
      ghost var before, firstId := ports, nextPortId;
      for i := 0 to |openPorts|
        invariant ports == before + NewPortRows(firstId, scanId, openPorts[..i])
        invariant nextPortId == firstId + i
      {
        assert NewPortRows(firstId, scanId, openPorts[..i + 1]) ==
               NewPortRows(firstId, scanId, openPorts[..i]) +
               [PortRow(nextPortId, scanId, openPorts[i].port, openPorts[i].banner)];
        ports := ports + [PortRow(nextPortId, scanId, openPorts[i].port, openPorts[i].banner)];
        nextPortId := nextPortId + 1;
      }
      assert openPorts[..|openPorts|] == openPorts;
    }

    /** `get_last_scan_ports`: find the target's highest scan id, then
        collect the port numbers filed under it. */
    method GetLastScanPorts(target: string) returns (r: Option<set<int>>)
      ensures r == LastPorts(scans, ports, target)
      ensures r.None? <==> forall k :: 0 <= k < |scans| ==> scans[k].targetIp != target
    {
      var latest: Option<nat> := None;
      for i := 0 to |scans|
        invariant latest == LatestScanId(scans[..i], target)
      {
        assert scans[..i + 1][..i] == scans[..i];
        var row := scans[i];
        if row.targetIp == target {
          latest := match latest
            case None => Some(row.id)
            case Some(m) => Some(if row.id >= m then row.id else m);
        }
      }
      assert scans[..|scans|] == scans;
      if latest.None? {
        return None;
      }
      var lastScanId := latest.value;
      var previous: set<int> := {};
      for j := 0 to |ports|
        invariant previous == PortsOf(ports[..j], lastScanId)
      {
        PortsOfSnoc(ports[..j], ports[j], lastScanId);
        assert ports[..j + 1] == ports[..j] + [ports[j]];
        if ports[j].scanId == lastScanId {
          previous := previous + {ports[j].portNumber};
        }
      }
      assert ports[..|ports|] == ports;
      r := Some(previous);
    }
  }
}
