/**
 * The toggle store (episode 9): per identity, a mutable pointer row
 * (sort key LATEST_SWITCH) holding the accepted switch with the greatest
 * timestamp, and write-once log rows (sort key SWITCH#<timestamp>) written
 * only together with a pointer change the event won.
 *
 * Save is a two-phase protocol over conditional transactions:
 * Phase 1 updates the pointer only if the stored created_at is strictly older,
 * together with the log put; a cancellation that reports a stored pointer means
 * the event lost and is dropped; one that reports none means there is no
 * pointer yet, and Phase 2 creates it (only if still absent) together with the
 * log put; a cancelled Phase 2 (another writer created the pointer first)
 * restarts Save.
 */
module Toggle {
  import opened Optional
  import opened Dynamo
  import Clock
  import Text

  datatype Switch = Switch(id: string, state: bool, createdAt: Clock.Instant)

  /** The stored row: pk, sk, state, created_at. */
  datatype SwitchItem = SwitchItem(pk: string, sk: string, state: bool, createdAt: Clock.Instant)

  type Rows = map<Key, SwitchItem>

  const LatestSortKey := "LATEST_SWITCH"
  const LogPrefix := "SWITCH#"

  /** Go's zero Switch{}, returned beside an error. */
  const NoSwitch := Switch("", false, 0)

  function AsSwitch(item: SwitchItem): Switch
  {
    Switch(item.pk, item.state, item.createdAt)
  }

  function AsLogItem(s: Switch): SwitchItem
  {
    SwitchItem(s.id, LogPrefix + Clock.FormatNano(s.createdAt), s.state, s.createdAt)
  }

  function AsLatestItem(s: Switch): SwitchItem
  {
    SwitchItem(s.id, LatestSortKey, s.state, s.createdAt)
  }

  /** The primary key an item is stored under. */
  function KeyOf(item: SwitchItem): Key
  {
    Key(item.pk, item.sk)
  }

  function LatestKey(id: string): Key
  {
    Key(id, LatestSortKey)
  }

  function LogKey(s: Switch): Key
  {
    KeyOf(AsLogItem(s))
  }

  /** Both rows live in the switch's partition; the pointer has the constant
      sort key, the log row SWITCH# and the encoded timestamp; state and
      timestamp are copied, so each row decodes back to the switch. */
  lemma RowEncoding(s: Switch)
    ensures KeyOf(AsLatestItem(s)) == LatestKey(s.id)
    ensures LogKey(s) == Key(s.id, "SWITCH#" + Clock.FormatNano(s.createdAt))
    ensures AsSwitch(AsLatestItem(s)) == s && AsSwitch(AsLogItem(s)) == s
  {
  }

  /** A log row never shares its key with a pointer row. */
  lemma {:induction false} LogKeyIsNotLatest(s: Switch, id: string)
    ensures LogKey(s) != LatestKey(id)
  {
    assert LogKey(s).sk[0] == 'S';
    assert LatestKey(id).sk[0] == 'L';
  }

  /** Two log rows share a key only for the same identity and timestamp. */
  lemma LogKeyInjective(s: Switch, t: Switch)
    requires LogKey(s) == LogKey(t)
    ensures s.id == t.id && s.createdAt == t.createdAt
  {
    var n := |LogPrefix|;
    assert LogKey(s).sk[n..] == Clock.FormatNano(s.createdAt);
    assert LogKey(t).sk[n..] == Clock.FormatNano(t.createdAt);
    Clock.FormatNanoInjective(s.createdAt, t.createdAt);
  }

  // ---------------------------------------------------------------- the two transactions

  /** SET created_at = :t, state = :s on the stored pointer (creating it with
      its key attributes if there were none). */
  function Stamp(s: Switch): Option<SwitchItem> -> SwitchItem
  {
    (o: Option<SwitchItem>) => if o.Some? then o.value.(state := s.state, createdAt := s.createdAt) else AsLatestItem(s)
  }

  /** Phase 1 condition: created_at < :t, false when there is no item. */
  function OlderThan(s: Switch): Option<SwitchItem> -> bool
  {
    (o: Option<SwitchItem>) => o.Some? && o.value.createdAt < s.createdAt
  }

  /** Phase 2 condition: NOT (pk = :id AND sk = LATEST_SWITCH). */
  function NotThisPointer(s: Switch): Option<SwitchItem> -> bool
  {
    (o: Option<SwitchItem>) => !(o.Some? && o.value.pk == s.id && o.value.sk == LatestSortKey)
  }

  function LogPut(s: Switch): WriteOp<Key, SwitchItem>
  {
    WriteOp(LogKey(s), Put(AsLogItem(s)), Always(), false)
  }

  function Phase1(s: Switch): seq<WriteOp<Key, SwitchItem>>
  {
    [WriteOp(LatestKey(s.id), Update(Stamp(s)), OlderThan(s), true), LogPut(s)]
  }

  function Phase2(s: Switch): seq<WriteOp<Key, SwitchItem>>
  {
    [WriteOp(LatestKey(s.id), Put(AsLatestItem(s)), NotThisPointer(s), false), LogPut(s)]
  }

  // ---------------------------------------------------------------- the specification

  /** Every row is stored under the key its own pk and sk name. */
  ghost predicate WellKeyed(rows: Rows)
  {
    forall k :: k in rows ==> KeyOf(rows[k]) == k
  }

  /** The invariant of the persisted layout: every log row belongs to an
      identity that has a pointer, and is no newer than that pointer. */
  ghost predicate LogBehindPointer(rows: Rows)
  {
    forall k :: k in rows && k.sk != LatestSortKey ==>
      LatestKey(k.pk) in rows && rows[k].createdAt <= rows[LatestKey(k.pk)].createdAt
  }

  /**
   * The net effect of a Save that completes without faults and without a
   * concurrent writer: a first event creates the pointer and its log row, a
   * strictly newer event moves the pointer and adds its log row, and any other
   * event writes nothing.
   */
  function Accept(rows: Rows, s: Switch): Rows
  {
    var latest := LatestKey(s.id);
    if latest !in rows then
      rows[latest := AsLatestItem(s)][LogKey(s) := AsLogItem(s)]
    else if rows[latest].createdAt < s.createdAt then
      rows[latest := Stamp(s)(Some(rows[latest]))][LogKey(s) := AsLogItem(s)]
    else
      rows
  }

  /** Saves of other clients, each completing as a whole, in order. */
  function AcceptAll(rows: Rows, ss: seq<Switch>): Rows
    decreases |ss|
  {
    if ss == [] then rows else AcceptAll(Accept(rows, ss[0]), ss[1..])
  }

  /** What the pointer of one identity says: the per-identity state machine. */
  datatype Pointer = NoLatest | HasLatest(createdAt: Clock.Instant, state: bool)

  function View(rows: Rows, id: string): Pointer
  {
    if LatestKey(id) in rows then HasLatest(rows[LatestKey(id)].createdAt, rows[LatestKey(id)].state)
    else NoLatest
  }

  /** NoLatest --s--> HasLatest(s); HasLatest(t) --s--> HasLatest(s) only when t < s.createdAt. */
  function Step(p: Pointer, s: Switch): Pointer
  {
    match p
    case NoLatest => HasLatest(s.createdAt, s.state)
    case HasLatest(t, _) => if t < s.createdAt then HasLatest(s.createdAt, s.state) else p
  }

  function Steps(p: Pointer, ss: seq<Switch>): Pointer
    decreases |ss|
  {
    if ss == [] then p else Steps(Step(p, ss[0]), ss[1..])
  }

  /** Accepting a switch moves its own identity's pointer by one step of the
      state machine and leaves every other identity's pointer alone. */
  lemma AcceptSteps(rows: Rows, s: Switch, id: string)
    ensures View(Accept(rows, s), id) == if id == s.id then Step(View(rows, id), s) else View(rows, id)
  {
    LogKeyIsNotLatest(s, id);
  }

  /** A switch that is not newer than the stored pointer writes nothing at all:
      no pointer change and no log row. */
  lemma DropsOutOfOrder(rows: Rows, s: Switch)
    requires LatestKey(s.id) in rows && s.createdAt <= rows[LatestKey(s.id)].createdAt
    ensures Accept(rows, s) == rows
  {
  }

  lemma AcceptKeepsKeys(rows: Rows, s: Switch)
    requires WellKeyed(rows)
    ensures WellKeyed(Accept(rows, s))
    ensures rows.Keys <= Accept(rows, s).Keys
  {
  }

  lemma {:induction false} AcceptAllKeepsKeys(rows: Rows, ss: seq<Switch>)
    requires WellKeyed(rows)
    ensures WellKeyed(AcceptAll(rows, ss))
    ensures rows.Keys <= AcceptAll(rows, ss).Keys
    decreases |ss|
  {
    if ss != [] {
      AcceptKeepsKeys(rows, ss[0]);
      AcceptAllKeepsKeys(Accept(rows, ss[0]), ss[1..]);
    }
  }

  /** Accepting a switch keeps every log row behind its pointer. */
  lemma AcceptKeepsLogBehind(rows: Rows, s: Switch)
    requires WellKeyed(rows) && LogBehindPointer(rows)
    ensures LogBehindPointer(Accept(rows, s))
  {
    var rows' := Accept(rows, s);
    forall k | k in rows' && k.sk != LatestSortKey
      ensures LatestKey(k.pk) in rows' && rows'[k].createdAt <= rows'[LatestKey(k.pk)].createdAt
    {
      LogKeyIsNotLatest(s, k.pk);
      if k == LogKey(s) {
        assert k.pk == s.id;
      } else {
        assert k in rows;
      }
    }
  }

  /** For switches of one identity, accepting them one after another runs the
      state machine over them. */
  lemma {:induction false} AcceptAllSteps(rows: Rows, ss: seq<Switch>, id: string)
    requires forall i :: 0 <= i < |ss| ==> ss[i].id == id
    ensures View(AcceptAll(rows, ss), id) == Steps(View(rows, id), ss)
    decreases |ss|
  {
    if ss != [] {
      AcceptSteps(rows, ss[0], id);
      AcceptAllSteps(Accept(rows, ss[0]), ss[1..], id);
    }
  }

  lemma {:induction false} StepsSnoc(p: Pointer, ss: seq<Switch>, x: Switch)
    ensures Steps(p, ss + [x]) == Step(Steps(p, ss), x)
    decreases |ss|
  {
    if ss != [] {
      assert (ss + [x])[1..] == ss[1..] + [x];
      StepsSnoc(Step(p, ss[0]), ss[1..], x);
    }
  }

  /** Switch `i` is the first one carrying the timestamp and state of `p`. */
  ghost predicate Wins(ss: seq<Switch>, i: nat, p: Pointer)
    requires i < |ss| && p.HasLatest?
  {
    && ss[i].createdAt == p.createdAt && ss[i].state == p.state
    && forall j :: 0 <= j < i ==> ss[j].createdAt < ss[i].createdAt
  }

  /**
   * Last writer wins by timestamp, whatever the arrival order: after a
   * non-empty series of switches the pointer holds the greatest timestamp
   * submitted, with the state of the first switch that carried it.
   */
  lemma {:induction false} LastWriterWins(ss: seq<Switch>)
    requires |ss| > 0
    ensures Steps(NoLatest, ss).HasLatest?
    ensures forall j :: 0 <= j < |ss| ==> ss[j].createdAt <= Steps(NoLatest, ss).createdAt
    ensures exists i :: 0 <= i < |ss| && Wins(ss, i, Steps(NoLatest, ss))
    decreases |ss|
  {
    var n := |ss| - 1;
    var init, x := ss[..n], ss[n];
    assert ss == init + [x];
    StepsSnoc(NoLatest, init, x);
    if n == 0 {
      assert Steps(NoLatest, ss) == HasLatest(x.createdAt, x.state);
      assert Wins(ss, 0, Steps(NoLatest, ss));
    } else {
      LastWriterWins(init);
      var p := Steps(NoLatest, init);
      var i :| 0 <= i < |init| && Wins(init, i, p);
      if p.createdAt < x.createdAt {
        assert forall j :: 0 <= j < n ==> ss[j] == init[j];
        assert Wins(ss, n, Steps(NoLatest, ss));
      } else {
        assert forall j :: 0 <= j <= i ==> ss[j] == init[j];
        assert Wins(ss, i, Steps(NoLatest, ss));
      }
    }
  }

  /** Switches saved in strictly increasing timestamp order leave the pointer
      at the last one. */
  lemma IncreasingSavesKeepLast(ss: seq<Switch>)
    requires |ss| > 0
    requires forall i, j :: 0 <= i < j < |ss| ==> ss[i].createdAt < ss[j].createdAt
    ensures Steps(NoLatest, ss) == HasLatest(ss[|ss| - 1].createdAt, ss[|ss| - 1].state)
  {
    LastWriterWins(ss);
    var p := Steps(NoLatest, ss);
    var i :| 0 <= i < |ss| && Wins(ss, i, p);
    assert ss[|ss| - 1].createdAt <= p.createdAt;
  }

  /** With distinct timestamps the arrival order does not matter: any
      reordering of the same switches leaves the same pointer. */
  lemma OrderIndependent(ss: seq<Switch>, tt: seq<Switch>)
    requires |ss| > 0 && multiset(ss) == multiset(tt)
    requires forall i, j :: 0 <= i < j < |ss| ==> ss[i].createdAt != ss[j].createdAt
    ensures Steps(NoLatest, ss) == Steps(NoLatest, tt)
  {
    assert |tt| == |multiset(tt)| == |multiset(ss)| == |ss|;
    LastWriterWins(ss);
    LastWriterWins(tt);
    var p, q := Steps(NoLatest, ss), Steps(NoLatest, tt);
    var i :| 0 <= i < |ss| && Wins(ss, i, p);
    var j :| 0 <= j < |tt| && Wins(tt, j, q);
    assert ss[i] in multiset(tt);
    var j' :| 0 <= j' < |tt| && tt[j'] == ss[i];
    assert tt[j] in multiset(ss);
    var i' :| 0 <= i' < |ss| && ss[i'] == tt[j];
    assert p.createdAt == q.createdAt;
    assert i == i';
  }

  lemma {:induction false} AcceptAllKeepsLogBehind(rows: Rows, ss: seq<Switch>)
    requires WellKeyed(rows) && LogBehindPointer(rows)
    ensures LogBehindPointer(AcceptAll(rows, ss))
    decreases |ss|
  {
    if ss != [] {
      AcceptKeepsLogBehind(rows, ss[0]);
      AcceptKeepsKeys(rows, ss[0]);
      AcceptAllKeepsLogBehind(Accept(rows, ss[0]), ss[1..]);
    }
  }

  // ---------------------------------------------------------------- the store

  /** The fault injected into call `i` of a series (None past its end). */
  function FaultAt(faults: seq<Option<Fault>>, i: nat): Option<Fault>
  {
    if i < |faults| then faults[i] else None
  }

  /** The errors the injected faults surface as. */
  function FaultErrors(faults: seq<Option<Fault>>): set<Error>
  {
    set i | 0 <= i < |faults| && faults[i].Some? :: ErrorOf(faults[i].value)
  }

  /**
   * Phase 1 commits exactly the acceptance of a newer event; a cancellation
   * that reports the stored pointer leaves nothing to accept; one that reports
   * none means there is no pointer, or a conflict.
   */
  lemma Phase1Effect(rows: Rows, s: Switch, fault: Option<Fault>)
    ensures var r := TransactWriteItems(rows, Phase1(s), fault);
      && (r.Committed? ==> r.after == Accept(rows, s))
      && (r.Canceled? && r.reasons[0].item.Some? ==> Accept(rows, s) == rows)
      && (r.Canceled? && r.reasons[0].item.None? ==>
            LatestKey(s.id) !in rows || fault == Some(ConflictFault))
      && (r.Failed? ==> fault.Some? && fault != Some(ConflictFault) && r.error == ErrorOf(fault.value))
  {
    LogKeyIsNotLatest(s, s.id);
    ApplyTwo(rows, Phase1(s)[0], Phase1(s)[1]);
  }

  /**
   * Phase 2 commits only where no pointer is stored, and then exactly the
   * acceptance of the event; it is cancelled by a stored pointer or a conflict.
   */
  lemma Phase2Effect(rows: Rows, s: Switch, fault: Option<Fault>)
    requires WellKeyed(rows)
    ensures var r := TransactWriteItems(rows, Phase2(s), fault);
      && (r.Committed? ==> LatestKey(s.id) !in rows && r.after == Accept(rows, s))
      && (r.Canceled? ==> LatestKey(s.id) in rows || fault == Some(ConflictFault))
      && (r.Failed? ==> fault.Some? && fault != Some(ConflictFault) && r.error == ErrorOf(fault.value))
  {
    LogKeyIsNotLatest(s, s.id);
    ApplyTwo(rows, Phase2(s)[0], Phase2(s)[1]);
  }

  /** No call of the series is cancelled by a conflicting transaction. */
  predicate NoConflicts(faults: seq<Option<Fault>>)
  {
    forall i :: 0 <= i < |faults| ==> faults[i] != Some(ConflictFault)
  }

  /** The faults left for the calls after the first two. */
  function AfterTwo(faults: seq<Option<Fault>>): (rest: seq<Option<Fault>>)
    ensures |faults| > 0 ==> |rest| < |faults|
    ensures |faults| == 0 ==> rest == []
    ensures FaultErrors(rest) <= FaultErrors(faults)
    ensures NoConflicts(faults) ==> NoConflicts(rest) && FaultAt(faults, 0) != Some(ConflictFault)
  {
    if |faults| < 2 then []
    else
      FaultErrorsOfSuffix(faults, 2);
      assert forall i :: 0 <= i < |faults[2..]| ==> faults[2..][i] == faults[i + 2];
      faults[2..]
  }

  lemma FaultErrorsOfSuffix(faults: seq<Option<Fault>>, n: nat)
    requires n <= |faults|
    ensures FaultErrors(faults[n..]) <= FaultErrors(faults)
  {
    forall e | e in FaultErrors(faults[n..]) ensures e in FaultErrors(faults) {
      var i :| 0 <= i < |faults[n..]| && faults[n..][i].Some? && ErrorOf(faults[n..][i].value) == e;
      assert faults[n + i] == faults[n..][i];
    }
  }

  class ToggleStore {
    const table: string
    var rows: Rows

    ghost predicate Valid()
      reads this
    {
      WellKeyed(rows)
    }

    constructor(table: string, rows: Rows)
      requires WellKeyed(rows)
      ensures Valid() && this.table == table && this.rows == rows
    {
      this.table := table;
      this.rows := rows;
    }

    /**
     * Save(s). The backend calls in order receive the faults in `faults`;
     * `rivals` are the saves other clients complete between a Phase 1 that
     * found no pointer and Phase 2.
     */
    method Save(s: Switch, faults: seq<Option<Fault>>, rivals: seq<Switch>) returns (err: Option<Error>, ghost restarts: nat)
      requires Valid()
      modifies this
      decreases |faults|, if LatestKey(s.id) in rows then 0 else 1, 1
      ensures Valid()
      ensures err.Some? ==> err.value in FaultErrors(faults)
      ensures err.Some? ==> rows == old(rows) || rows == AcceptAll(old(rows), rivals)
      ensures FaultAt(faults, 0).Some? && FaultAt(faults, 0) != Some(ConflictFault) ==>
        err == Some(ErrorOf(FaultAt(faults, 0).value)) && rows == old(rows)
      ensures FaultAt(faults, 0).None? && LatestKey(s.id) !in old(rows)
              && FaultAt(faults, 1).Some? && FaultAt(faults, 1) != Some(ConflictFault) ==>
        err == Some(ErrorOf(FaultAt(faults, 1).value)) && rows == AcceptAll(old(rows), rivals)
      ensures err.None? ==> rows == Accept(old(rows), s) || rows == Accept(AcceptAll(old(rows), rivals), s)
      ensures LatestKey(s.id) !in old(rows) && err.None? ==> rows == Accept(AcceptAll(old(rows), rivals), s)
      ensures NoConflicts(faults) ==> restarts <= 1
      ensures NoConflicts(faults) && LatestKey(s.id) in old(rows) ==>
        restarts == 0 && rows == if err.None? then Accept(old(rows), s) else old(rows)
      ensures LogBehindPointer(old(rows)) ==> LogBehindPointer(rows)
    {
      var latest := LatestKey(s.id);
      Phase1Effect(rows, s, FaultAt(faults, 0));
      var phase1 := TransactWriteItems(rows, Phase1(s), FaultAt(faults, 0));
      if phase1.Committed? {
        rows := phase1.after;
        if LogBehindPointer(old(rows)) {
          AcceptKeepsLogBehind(old(rows), s);
        }
        return None, 0;
      }
      if phase1.Failed? {
        return Some(phase1.error), 0;
      }
      if phase1.reasons[0].item.Some? {
        // a newer or equal pointer is stored: the event lost and is dropped
        return None, 0;
      }
      // no pointer is stored, or a conflict cancelled Phase 1: both read as "no pointer yet"
      err, restarts := CreatePointer(s, faults, rivals);
    }

    /**
     * The rest of Save after a Phase 1 cancellation without a stored pointer:
     * other clients' saves `rivals` complete, then Phase 2 creates the pointer
     * only if it is still missing, together with the log row; a cancelled
     * Phase 2 restarts Save with the faults after the first two.
     */
    method CreatePointer(s: Switch, faults: seq<Option<Fault>>, rivals: seq<Switch>) returns (err: Option<Error>, ghost restarts: nat)
      requires Valid()
      requires LatestKey(s.id) !in rows || FaultAt(faults, 0) == Some(ConflictFault)
      modifies this
      decreases |faults|, if LatestKey(s.id) in rows then 0 else 1, 0
      ensures Valid()
      ensures err.Some? ==> err.value in FaultErrors(faults) && rows == AcceptAll(old(rows), rivals)
      ensures err.None? ==> rows == Accept(AcceptAll(old(rows), rivals), s)
      ensures FaultAt(faults, 1).Some? && FaultAt(faults, 1) != Some(ConflictFault) ==>
        err == Some(ErrorOf(FaultAt(faults, 1).value)) && rows == AcceptAll(old(rows), rivals)
      ensures NoConflicts(faults) ==> restarts <= 1
      ensures LogBehindPointer(old(rows)) ==> LogBehindPointer(rows)
    {
      var latest := LatestKey(s.id);
      AcceptAllKeepsKeys(rows, rivals);
      if LogBehindPointer(rows) {
        AcceptAllKeepsLogBehind(rows, rivals);
      }
      rows := AcceptAll(rows, rivals);

      Phase2Effect(rows, s, FaultAt(faults, 1));
      var phase2 := TransactWriteItems(rows, Phase2(s), FaultAt(faults, 1));
      if phase2.Committed? {
        rows := phase2.after;
        if LogBehindPointer(old(rows)) {
          AcceptKeepsLogBehind(AcceptAll(old(rows), rivals), s);
        }
        return None, 0;
      }
      if phase2.Failed? {
        return Some(phase2.error), 0;
      }
      // another writer created the pointer first, or a conflict: start over
      var rest := AfterTwo(faults);
      if |faults| == 0 {
        assert latest in rows;
      }
      assert AcceptAll(rows, []) == rows;
      err, restarts := Save(s, rest, []);
      restarts := restarts + 1;
    }

    /** Latest(id): the switch the pointer row holds, or "not found". */
    method Latest(id: string, fault: Option<Fault>) returns (s: Switch, err: Option<Error>)
      requires Valid()
      ensures fault.Some? ==> s == NoSwitch && err == Some(ErrorOf(fault.value))
      ensures fault.None? && View(rows, id) == NoLatest ==> s == NoSwitch && err == Some(Message("not found"))
      ensures fault.None? && View(rows, id) != NoLatest ==>
        err.None? && s.id == id && View(rows, id) == HasLatest(s.createdAt, s.state)
    {
      var out := GetItem(rows, LatestKey(id), fault);
      if out.Err? {
        return NoSwitch, Some(out.error);
      }
      if out.value.None? {
        return NoSwitch, Some(Message("not found"));
      }
      return AsSwitch(out.value.value), None;
    }
  }
}
