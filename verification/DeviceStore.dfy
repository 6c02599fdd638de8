/**
 * The device-local store (core/internal/devicesync/mem_storage.go): a record map and a
 * sequenced change log, first as a value with its operations, then as the class that
 * updates them in place.
 */
module DeviceStore {
  import opened Common

  datatype Key = Key(table: string, id: string)

  /** The wire carries the operation as an integer; anything but put and delete is ignored. */
  datatype Op = OpPut | OpDelete | OpUnknown

  datatype Record = Record(key: Key, body: Bytes, timestamp: int)

  datatype Change = Change(number: nat, timestamp: int, key: Key, op: Op, body: Bytes)

  datatype State = State(records: map<Key, Record>, log: seq<Change>, latest: nat)

  const EMPTY := State(map[], [], 0)

  function PutIn(s: State, key: Key, body: Bytes, timestamp: int): State {
    State(s.records[key := Record(key, body, timestamp)],
          s.log + [Change(s.latest + 1, timestamp, key, OpPut, body)],
          s.latest + 1)
  }

  function DeleteIn(s: State, key: Key, timestamp: int): State {
    State(s.records - {key}, s.log + [Change(s.latest + 1, timestamp, key, OpDelete, [])], s.latest + 1)
  }

  /** The timestamp last-write-wins compares against; an absent record counts as 0. */
  function TimestampOf(records: map<Key, Record>, key: Key): int {
    if key in records then records[key].timestamp else 0
  }

  /** Last-write-wins over a list of records, as a restore applies them. */
  function RestoreIn(s: State, records: seq<Record>): State
    decreases |records|
  {
    if records == [] then s
    else
      var r := records[0];
      RestoreIn(if r.timestamp > TimestampOf(s.records, r.key) then PutIn(s, r.key, r.body, r.timestamp) else s,
                records[1..])
  }

  function DropBelow(log: seq<Change>, minSeq: nat): seq<Change> {
    if log == [] || log[0].number >= minSeq then log else DropBelow(log[1..], minSeq)
  }

  function After(log: seq<Change>, since: nat): seq<Change> {
    if log == [] then []
    else if log[0].number > since then [log[0]] + After(log[1..], since)
    else After(log[1..], since)
  }

  function FirstSeq(log: seq<Change>): nat {
    if log == [] then 0 else log[0].number
  }

  /** The log is the tail of an unbroken numbering 1, 2, ..., latest, and not empty once used. */
  ghost predicate GapFree(s: State) {
    && |s.log| <= s.latest
    && (s.latest > 0 ==> s.log != [])
    && forall i :: 0 <= i < |s.log| ==> s.log[i].number == s.latest - |s.log| + 1 + i
  }

  /** On consecutive numbers, dropping below a number is slicing. */
  lemma {:induction false} DropBelowSlices(log: seq<Change>, first: nat, minSeq: nat)
    requires forall i :: 0 <= i < |log| ==> log[i].number == first + i
    requires minSeq <= first + |log|
    ensures DropBelow(log, minSeq) == log[if minSeq > first then minSeq - first else 0..]
  {
    if log != [] && log[0].number < minSeq {
      DropBelowSlices(log[1..], first + 1, minSeq);
    }
  }

  lemma {:induction false} AfterSlices(log: seq<Change>, first: nat, since: nat)
    requires forall i :: 0 <= i < |log| ==> log[i].number == first + i
    requires first <= since + 1 <= first + |log|
    ensures After(log, since) == log[since + 1 - first..]
  {
    if log != [] {
      if log[0].number > since {
        AfterAll(log, since);
      } else {
        AfterSlices(log[1..], first + 1, since);
      }
    }
  }

  lemma {:induction false} AfterAll(log: seq<Change>, since: nat)
    requires forall e :: e in log ==> e.number > since
    ensures After(log, since) == log
  {
    if log != [] {
      AfterAll(log[1..], since);
    }
  }

  lemma {:induction false} AfterAppend(log: seq<Change>, e: Change, since: nat)
    ensures After(log + [e], since) == After(log, since) + if e.number > since then [e] else []
  {
    if log == [] {
      assert log + [e] == [e];
    } else {
      assert (log + [e])[1..] == log[1..] + [e];
      AfterAppend(log[1..], e, since);
    }
  }

  function InTable(records: map<Key, Record>, table: string): set<Record> {
    set k | k in records && k.table == table :: records[k]
  }

  function Tables(records: map<Key, Record>): set<string> {
    set k | k in records :: k.table
  }

  /** Every record is stored under its own key. */
  ghost predicate Keyed(records: map<Key, Record>) {
    forall k :: k in records ==> records[k].key == k
  }

  class MemStorage {
    var records: map<Key, Record>
    var log: seq<Change>
    var latest: nat

    function S(): State
      reads this
    {
      State(records, log, latest)
    }

    constructor ()
      ensures S() == EMPTY
    {
      records, log, latest := map[], [], 0;
    }

    method Put(key: Key, body: Bytes, timestamp: int) returns (given: nat)
      modifies this
      ensures S() == PutIn(old(S()), key, body, timestamp)
      ensures given == latest
    {
      latest := latest + 1;
      records := records[key := Record(key, body, timestamp)];
      log := log + [Change(latest, timestamp, key, OpPut, body)];
      given := latest;
    }

    method Get(key: Key) returns (r: Option<Record>)
      ensures r == if key in records then Some(records[key]) else None
    {
      r := if key in records then Some(records[key]) else None;
    }

    method Delete(key: Key, timestamp: int) returns (given: nat)
      modifies this
      ensures S() == DeleteIn(old(S()), key, timestamp)
      ensures given == latest
    {
      latest := latest + 1;
      records := records - {key};
      log := log + [Change(latest, timestamp, key, OpDelete, [])];
      given := latest;
    }

    method GetTimestamp(key: Key) returns (t: int)
      ensures t == TimestampOf(records, key)
    {
      t := if key in records then records[key].timestamp else 0;
    }

    method ChangesSince(since: nat) returns (r: seq<Change>)
      ensures r == After(log, since)
    {
      r := [];
      for i := 0 to |log|
        invariant r == After(log[..i], since)
      {
        assert log[..i + 1] == log[..i] + [log[i]];
        AfterAppend(log[..i], log[i], since);
        if log[i].number > since {
          r := r + [log[i]];
        }
      }
      assert log[..|log|] == log;
    }

    method LatestSeq() returns (r: nat)
      ensures r == latest
    {
      r := latest;
    }

    method MinSeq() returns (r: nat)
      ensures r == FirstSeq(log)
    {
      r := if |log| == 0 then 0 else log[0].number;
    }

    method TruncateChangeLog(minSeq: nat)
      modifies this`log
      ensures log == DropBelow(old(log), minSeq)
    {
      var idx := 0;
      while idx < |log| && log[idx].number < minSeq
        invariant idx <= |log|
        invariant DropBelow(log, minSeq) == DropBelow(log[idx..], minSeq)
      {
        idx := idx + 1;
      }
      log := log[idx..];
    }

    /** Map iteration order is arbitrary, so the listing is only fixed as a set. */
    method List(table: string) returns (r: seq<Record>)
      requires Keyed(records)
      ensures ListsOnce(InTable(records, table), r)
    {
      r := [];
      var todo := records.Keys;
      while todo != {}
        invariant todo <= records.Keys
        invariant forall x :: x in r <==> exists k :: k in records && k !in todo && k.table == table && records[k] == x
        invariant forall i, j :: 0 <= i < j < |r| ==> r[i] != r[j]
        decreases todo
      {
        var k :| k in todo;
        todo := todo - {k};
        if k.table == table {
          assert records[k] !in r;
          r := r + [records[k]];
        }
      }
    }

    method ListTables() returns (r: seq<string>)
      ensures ListsOnce(Tables(records), r)
    {
      var seen := Tables(records);
      r := [];
      while seen != {}
        invariant seen <= Tables(records)
        invariant forall x :: x in r <==> x in Tables(records) && x !in seen
        invariant forall i, j :: 0 <= i < j < |r| ==> r[i] != r[j]
        decreases seen
      {
        var t :| t in seen;
        seen := seen - {t};
        r := r + [t];
      }
    }
  }
}
