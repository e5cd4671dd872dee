/** The bounded streaming analyser of scripts/analyze-latency.py.  Records are taken
    as already decoded and validated; the analyser's one pass over them is compared
    with counts over the whole trace. */
module Traces {
  import opened Basics
  import opened Keys

  /** A stage's name; which names are valid is checked before. */
  type Stage = string

  /** A number and a text that look alike are different tags. */
  datatype Tag = Number(n: nat) | Text(s: string)

  datatype Key = Key(session: string, tag: Tag)

  /** What is kept of an event. */
  datatype Seen = Seen(clock: string, time: nat, window: Option<Tag>)

  datatype Row =
    | Event(session: string, stage: Stage, correlation: Option<Tag>, seen: Seen)
    | Stats(session: string, dropped: nat, rejected: nat, final: bool, captured: bool, drained: bool, late: Option<nat>)
    | Other(session: string)  // session headers and calibrations

  /** How often a stage occurred in a group, and its first event. */
  datatype Cell = Cell(count: nat, first: Seen)

  type Group = map<Stage, Cell>

  datatype Totals = Totals(dropped: nat, rejected: nat, final: bool, captured: bool, drained: bool,
                           late: Option<nat>, lateKnown: bool)

  datatype State = State(groups: map<Key, Group>, sessions: set<string>, stats: map<string, Totals>,
                         stages: map<Stage, nat>, unmatched: map<Stage, nat>, unanalyzed: map<Stage, nat>)

  datatype Limits = Limits(groups: nat, sessions: nat)

  const START := State(map[], {}, map[], map[], map[], map[])

  // ---------------------------------------------------------------- the one pass

  function Of(counter: map<Stage, nat>, stage: Stage): nat { if stage in counter then counter[stage] else 0 }

  function Plus(counter: map<Stage, nat>, stage: Stage): map<Stage, nat> { counter[stage := Of(counter, stage) + 1] }

  /** One more event of a group. */
  function Grown(g: Group, stage: Stage, seen: Seen): Group {
    g[stage := if stage in g then Cell(g[stage].count + 1, g[stage].first) else Cell(1, seen)]
  }

  function Max(a: nat, b: nat): nat { if a < b then b else a }

  function Later(a: Option<nat>, b: Option<nat>): Option<nat> {
    if a.None? then b else if b.None? then a else Some(Max(a.value, b.value))
  }

  const NO_STATS := Totals(0, 0, false, false, false, None, false)

  /** Snapshots are cumulative: maxima, never sums. */
  function Merged(t: Totals, r: Row): Totals
    requires r.Stats?
  {
    var final := t.final || r.final;
    Totals(Max(t.dropped, r.dropped), Max(t.rejected, r.rejected), final,
           final || t.captured || r.captured, final || t.drained || r.drained,
           Later(t.late, r.late), t.lateKnown || (r.final && r.late.Some?))
  }

  /** A session beyond capacity is left out for good. */
  predicate Untracked(s: State, r: Row, limits: Limits) { r.session !in s.sessions && |s.sessions| >= limits.sessions }

  /** Where an event goes: nowhere (it is no event), to the events without a
      correlation, to those left out for capacity, or to its group. */
  datatype Fate = NoEvent | Unmatched | Omitted | Kept(key: Key)

  function FateOf(s: State, r: Row, limits: Limits): Fate {
    if !r.Event? then NoEvent
    else if Untracked(s, r, limits) then Omitted
    else if r.correlation.None? then Unmatched
    else
      var key := Key(r.session, r.correlation.value);
      if key !in s.groups && |s.groups| >= limits.groups then Omitted else Kept(key)
  }

  function GroupsAfter(s: State, r: Row, limits: Limits): map<Key, Group> {
    match FateOf(s, r, limits)
    case Kept(key) => s.groups[key := Grown(if key in s.groups then s.groups[key] else map[], r.stage, r.seen)]
    case _ => s.groups
  }

  function SessionsAfter(s: State, r: Row, limits: Limits): set<string> {
    if Untracked(s, r, limits) then s.sessions else s.sessions + {r.session}
  }

  function StatsAfter(s: State, r: Row, limits: Limits): map<string, Totals> {
    if !r.Stats? || Untracked(s, r, limits) then s.stats
    else s.stats[r.session := Merged(if r.session in s.stats then s.stats[r.session] else NO_STATS, r)]
  }

  function Record(s: State, r: Row, limits: Limits): State {
    var fate := FateOf(s, r, limits);
    State(GroupsAfter(s, r, limits), SessionsAfter(s, r, limits), StatsAfter(s, r, limits),
          if r.Event? then Plus(s.stages, r.stage) else s.stages,
          if fate.Unmatched? then Plus(s.unmatched, r.stage) else s.unmatched,
          if fate.Omitted? then Plus(s.unanalyzed, r.stage) else s.unanalyzed)
  }

  /** analyze: refused only for a capacity of zero. */
  method Analyze(rows: seq<Row>, limits: Limits) returns (r: Option<State>)
    ensures r.None? <==> limits.groups < 1 || limits.sessions < 1
    ensures r.Some? ==> Inv(rows, r.value, limits)
  {
    if limits.groups < 1 || limits.sessions < 1 {
      return None;
    }
    var s := START;
    InvStart(limits);
    for i := 0 to |rows|
      invariant Inv(rows[..i], s, limits)
    {
      InvNext(rows, i, s, limits);
      s := Record(s, rows[i], limits);
    }
    assert rows[..|rows|] == rows;
    r := Some(s);
  }

  // ------------------------------------------------------ what the trace contains

  predicate Matches(r: Row, key: Key, stage: Stage) {
    r.Event? && r.session == key.session && r.correlation == Some(key.tag) && r.stage == stage
  }

  function Hit(b: bool): nat { if b then 1 else 0 }

  /** Events of a key at a stage, over the whole trace. */
  function Count(rows: seq<Row>, key: Key, stage: Stage): nat {
    if rows == [] then 0 else Count(rows[..|rows| - 1], key, stage) + Hit(Matches(rows[|rows| - 1], key, stage))
  }

  function First(rows: seq<Row>, key: Key, stage: Stage): Option<Seen> {
    if rows == [] then None
    else
      var before, last := First(rows[..|rows| - 1], key, stage), rows[|rows| - 1];
      if before.Some? then before else if Matches(last, key, stage) then Some(last.seen) else None
  }

  /** The cell a group should have for a stage. */
  function CellOf(rows: seq<Row>, key: Key, stage: Stage): Option<Cell> {
    if First(rows, key, stage).None? then None else Some(Cell(Count(rows, key, stage), First(rows, key, stage).value))
  }

  function CellIn(g: Group, stage: Stage): Option<Cell> { if stage in g then Some(g[stage]) else None }

  function StageCount(rows: seq<Row>, stage: Stage): nat {
    if rows == [] then 0
    else StageCount(rows[..|rows| - 1], stage) + Hit(rows[|rows| - 1].Event? && rows[|rows| - 1].stage == stage)
  }

  lemma Snoc(rows: seq<Row>, r: Row, key: Key, stage: Stage)
    ensures Count(rows + [r], key, stage) == Count(rows, key, stage) + Hit(Matches(r, key, stage))
    ensures First(rows + [r], key, stage) ==
            if First(rows, key, stage).Some? then First(rows, key, stage)
            else if Matches(r, key, stage) then Some(r.seen) else None
    ensures StageCount(rows + [r], stage) == StageCount(rows, stage) + Hit(r.Event? && r.stage == stage)
  {
    assert (rows + [r])[..|rows + [r]| - 1] == rows;
  }

  lemma {:induction false} FirstCounts(rows: seq<Row>, key: Key, stage: Stage)
    ensures First(rows, key, stage).None? <==> Count(rows, key, stage) == 0
  {
    if rows != [] { FirstCounts(rows[..|rows| - 1], key, stage); }
  }

  // --------------------------------------------------------------- the invariant

  function StageOf(stage: Stage): Group -> nat { (g: Group) => if stage in g then g[stage].count else 0 }

  /** A retained group counts every event of its key in the whole trace. */
  ghost predicate GroupOk(rows: seq<Row>, key: Key, g: Group) {
    forall stage {:trigger CellIn(g, stage)} :: CellIn(g, stage) == CellOf(rows, key, stage)
  }

  /** A key that occurs is retained unless a capacity is used up. */
  ghost predicate Retained(rows: seq<Row>, key: Key, s: State, limits: Limits) {
    key !in s.groups ==>
      |s.groups| >= limits.groups || key.session !in s.sessions || forall stage :: First(rows, key, stage).None?
  }

  /** Every valid event is counted exactly once. */
  ghost predicate Conserved(rows: seq<Row>, s: State, stage: Stage) {
    && Of(s.stages, stage) == StageCount(rows, stage)
    && Of(s.stages, stage) == Of(s.unmatched, stage) + Of(s.unanalyzed, stage) + Total(s.groups, StageOf(stage))
  }

  ghost predicate SessionOk(rows: seq<Row>, s: State, limits: Limits) {
    && |s.sessions| <= limits.sessions && |s.groups| <= limits.groups
    && (forall i | 0 <= i < |rows| :: rows[i].session in s.sessions || |s.sessions| >= limits.sessions)
    && (forall x | x in s.sessions :: exists i | 0 <= i < |rows| :: rows[i].session == x)
    && (forall key | key in s.groups :: key.session in s.sessions)
    && (forall key | key in s.groups :: exists i | 0 <= i < |rows| :: KeyOf(rows[i]) == Some(key))
  }

  /** The snapshots of one session, as a set: order and repetition do not matter. */
  predicate Snapshot(rows: seq<Row>, session: string, r: Row) { r in rows && r.Stats? && r.session == session }

  ghost predicate Any(rows: seq<Row>, session: string, p: Row -> bool) {
    exists r {:trigger Snapshot(rows, session, r)} :: Snapshot(rows, session, r) && p(r)
  }

  /** m is the largest value any snapshot gives, or zero. */
  ghost predicate IsMax(rows: seq<Row>, session: string, of: Row -> nat, m: nat) {
    && (forall r {:trigger Snapshot(rows, session, r)} | Snapshot(rows, session, r) :: of(r) <= m)
    && (m == 0 || Any(rows, session, r => of(r) == m))
  }

  function DroppedOf(r: Row): nat { if r.Stats? then r.dropped else 0 }
  function RejectedOf(r: Row): nat { if r.Stats? then r.rejected else 0 }
  function LateOf(r: Row): nat { if r.Stats? && r.late.Some? then r.late.value else 0 }
  predicate IsRow(r: Row) { r.Stats? }
  predicate IsFinal(r: Row) { r.Stats? && r.final }
  predicate IsCaptured(r: Row) { r.Stats? && (r.final || r.captured) }
  predicate IsDrained(r: Row) { r.Stats? && (r.final || r.drained) }
  predicate HasLate(r: Row) { r.Stats? && r.late.Some? }
  predicate IsLateKnown(r: Row) { r.Stats? && r.final && r.late.Some? }

  /** Maxima and disjunctions over all snapshots of the session in the trace. */
  ghost predicate StatsFit(rows: seq<Row>, session: string, t: Totals) {
    && IsMax(rows, session, DroppedOf, t.dropped)
    && IsMax(rows, session, RejectedOf, t.rejected)
    && (t.final <==> Any(rows, session, IsFinal))
    && (t.captured <==> Any(rows, session, IsCaptured))
    && (t.drained <==> Any(rows, session, IsDrained))
    && (t.late.Some? <==> Any(rows, session, HasLate))
    && IsMax(rows, session, LateOf, if t.late.Some? then t.late.value else 0)
    && (t.lateKnown <==> Any(rows, session, IsLateKnown))
  }

  /** Every tracked session with a snapshot has exactly its totals. */
  ghost predicate StatsOk(rows: seq<Row>, s: State, session: string) {
    && (session in s.stats ==>
          session in s.sessions && Any(rows, session, IsRow) && StatsFit(rows, session, s.stats[session]))
    && (session in s.sessions && session !in s.stats ==> forall r :: !Snapshot(rows, session, r))
  }

  ghost predicate Inv(rows: seq<Row>, s: State, limits: Limits) {
    && SessionOk(rows, s, limits)
    && (forall session {:trigger StatsOk(rows, s, session)} :: StatsOk(rows, s, session))
    && (forall key {:trigger GroupOk(rows, key, s.groups[key])} | key in s.groups :: GroupOk(rows, key, s.groups[key]))
    && (forall key {:trigger Retained(rows, key, s, limits)} :: Retained(rows, key, s, limits))
    && (forall stage {:trigger Conserved(rows, s, stage)} :: Conserved(rows, s, stage))
  }

  lemma InvStart(limits: Limits)
    ensures Inv([], START, limits)
  {
    forall stage ensures Conserved([], START, stage) { assert Total(START.groups, StageOf(stage)) == 0; }
  }

  // --------------------------------------------------------------- preservation

  lemma SessionsKeep(rows: seq<Row>, s: State, r: Row, limits: Limits)
    requires SessionOk(rows, s, limits)
    ensures SessionOk(rows + [r], Record(s, r, limits), limits)
  {
    var m, n := rows + [r], Record(s, r, limits);
    forall i | 0 <= i < |m| ensures m[i].session in n.sessions || |n.sessions| >= limits.sessions {
      RowTracked(rows, s, r, limits, i);
    }
    forall x | x in n.sessions ensures exists i | 0 <= i < |m| :: m[i].session == x {
      SessionOccurs(rows, s, r, limits, x);
    }
    forall key | key in n.groups ensures exists i | 0 <= i < |m| :: KeyOf(m[i]) == Some(key) {
      KeyOccurs(rows, s, r, limits, key);
    }
    Bounded(rows, s, r, limits);
  }

  lemma Bounded(rows: seq<Row>, s: State, r: Row, limits: Limits)
    requires SessionOk(rows, s, limits)
    ensures var n := Record(s, r, limits);
            && |n.sessions| <= limits.sessions && |n.groups| <= limits.groups
            && forall key | key in n.groups :: key.session in n.sessions
  {
    SessionsBounded(s, r, limits);
    GroupsBounded(s, r, limits);
  }

  lemma SessionsBounded(s: State, r: Row, limits: Limits)
    requires |s.sessions| <= limits.sessions
    ensures |SessionsAfter(s, r, limits)| <= limits.sessions
  {
    assert r.session in s.sessions ==> s.sessions + {r.session} == s.sessions;
  }

  lemma GroupsBounded(s: State, r: Row, limits: Limits)
    requires |s.groups| <= limits.groups && forall key | key in s.groups :: key.session in s.sessions
    ensures |GroupsAfter(s, r, limits)| <= limits.groups
    ensures forall key | key in GroupsAfter(s, r, limits) :: key.session in SessionsAfter(s, r, limits)
  {
    var fate, after := FateOf(s, r, limits), GroupsAfter(s, r, limits);
    if fate.Kept? {
      assert after.Keys == s.groups.Keys + {fate.key};
      assert fate.key in s.groups ==> after.Keys == s.groups.Keys;
      assert |after| == |after.Keys| && |s.groups| == |s.groups.Keys|;
    }
  }

  lemma RowTracked(rows: seq<Row>, s: State, r: Row, limits: Limits, i: nat)
    requires SessionOk(rows, s, limits) && i < |rows + [r]|
    ensures var n := Record(s, r, limits); (rows + [r])[i].session in n.sessions || |n.sessions| >= limits.sessions
  {
    assert r.session in s.sessions ==> s.sessions + {r.session} == s.sessions;
    if i < |rows| { assert (rows + [r])[i] == rows[i]; }
  }

  lemma SessionOccurs(rows: seq<Row>, s: State, r: Row, limits: Limits, x: string)
    requires SessionOk(rows, s, limits) && x in Record(s, r, limits).sessions
    ensures exists i | 0 <= i < |rows + [r]| :: (rows + [r])[i].session == x
  {
    var m := rows + [r];
    assert m[|rows|] == r;
    if x in s.sessions {
      var i :| 0 <= i < |rows| && rows[i].session == x;
      assert m[i].session == x;
    }
  }

  lemma KeyOccurs(rows: seq<Row>, s: State, r: Row, limits: Limits, key: Key)
    requires SessionOk(rows, s, limits) && key in Record(s, r, limits).groups
    ensures exists i | 0 <= i < |rows + [r]| :: KeyOf((rows + [r])[i]) == Some(key)
  {
    var m := rows + [r];
    assert m[|rows|] == r;
    if key in s.groups {
      var i :| 0 <= i < |rows| && KeyOf(rows[i]) == Some(key);
      assert KeyOf(m[i]) == Some(key);
    }
  }

  /** The key a record belongs to, if any. */
  function KeyOf(r: Row): Option<Key> {
    if r.Event? && r.correlation.Some? then Some(Key(r.session, r.correlation.value)) else None
  }

  /** Another key's record changes nothing. */
  lemma OtherKey(rows: seq<Row>, r: Row, key: Key)
    requires KeyOf(r) != Some(key)
    ensures forall stage ::
              && CellOf(rows + [r], key, stage) == CellOf(rows, key, stage)
              && First(rows + [r], key, stage) == First(rows, key, stage)
  {
    forall stage
      ensures CellOf(rows + [r], key, stage) == CellOf(rows, key, stage)
      ensures First(rows + [r], key, stage) == First(rows, key, stage)
    {
      Snoc(rows, r, key, stage);
    }
  }

  lemma OwnKey(rows: seq<Row>, r: Row, key: Key, g: Group)
    requires KeyOf(r) == Some(key) && GroupOk(rows, key, g)
    ensures GroupOk(rows + [r], key, Grown(g, r.stage, r.seen))
  {
    var h := Grown(g, r.stage, r.seen);
    forall stage ensures CellIn(h, stage) == CellOf(rows + [r], key, stage) {
      Snoc(rows, r, key, stage);
      FirstCounts(rows, key, stage);
      assert CellIn(g, stage) == CellOf(rows, key, stage);
    }
  }

  /** A key met for the first time has no events before. */
  lemma NewKey(rows: seq<Row>, s: State, key: Key, limits: Limits)
    requires Inv(rows, s, limits) && key !in s.groups && |s.groups| < limits.groups
    requires key.session in s.sessions || |s.sessions| < limits.sessions
    ensures GroupOk(rows, key, map[])
  {
    assert Retained(rows, key, s, limits);
    if key.session !in s.sessions {
      forall stage ensures First(rows, key, stage).None? { NoSession(rows, key, stage); }
    }
    forall stage ensures CellIn(map[], stage) == CellOf(rows, key, stage) { assert First(rows, key, stage).None?; }
  }

  lemma {:induction false} NoSession(rows: seq<Row>, key: Key, stage: Stage)
    requires forall i | 0 <= i < |rows| :: rows[i].session != key.session
    ensures First(rows, key, stage).None?
  {
    if rows != [] { NoSession(rows[..|rows| - 1], key, stage); }
  }

  lemma GroupsKeep(rows: seq<Row>, s: State, r: Row, limits: Limits, key: Key)
    requires Inv(rows, s, limits) && key in Record(s, r, limits).groups
    ensures GroupOk(rows + [r], key, Record(s, r, limits).groups[key])
  {
    var n := Record(s, r, limits);
    assert key in s.groups ==> GroupOk(rows, key, s.groups[key]);
    if KeyOf(r) == Some(key) {
      if key in s.groups {
        OwnKey(rows, r, key, s.groups[key]);
      } else {
        NewKey(rows, s, key, limits);
        OwnKey(rows, r, key, map[]);
      }
    } else {
      OtherKey(rows, r, key);
      assert n.groups[key] == s.groups[key];
    }
  }

  lemma RetainedKeep(rows: seq<Row>, s: State, r: Row, limits: Limits, key: Key)
    requires Inv(rows, s, limits)
    ensures Retained(rows + [r], key, Record(s, r, limits), limits)
  {
    var n := Record(s, r, limits);
    assert Retained(rows, key, s, limits);
    if KeyOf(r) != Some(key) {
      OtherKey(rows, r, key);
      if key !in n.groups && key.session !in s.sessions && key.session in n.sessions {
        forall stage ensures First(rows, key, stage).None? { NoSession(rows, key, stage); }
      }
    }
  }

  /** One event more, in exactly one place. */
  lemma Tally(counter: map<Stage, nat>, at: Stage, stage: Stage)
    ensures Of(Plus(counter, at), stage) == Of(counter, stage) + Hit(at == stage)
  {
  }

  lemma GrownTotal(groups: map<Key, Group>, key: Key, r: Row, stage: Stage)
    requires r.Event?
    ensures var g := if key in groups then groups[key] else map[];
            Total(groups[key := Grown(g, r.stage, r.seen)], StageOf(stage)) ==
            Total(groups, StageOf(stage)) + Hit(r.stage == stage)
  {
    var g := if key in groups then groups[key] else map[];
    var h := Grown(g, r.stage, r.seen);
    if key in groups { TotalUpdate(groups, StageOf(stage), key, h); } else { TotalAdd(groups, StageOf(stage), key, h); }
  }

  lemma ConservedKeep(rows: seq<Row>, s: State, r: Row, limits: Limits, stage: Stage)
    requires Conserved(rows, s, stage)
    ensures Conserved(rows + [r], Record(s, r, limits), stage)
  {
    Snoc(rows, r, Key("", Number(0)), stage);
    if r.Event? {
      Tally(s.stages, r.stage, stage);
      Tally(s.unmatched, r.stage, stage);
      Tally(s.unanalyzed, r.stage, stage);
      var fate := FateOf(s, r, limits);
      if fate.Kept? { GrownTotal(s.groups, fate.key, r, stage); }
    }
  }

  lemma AnySnoc(rows: seq<Row>, r: Row, session: string, p: Row -> bool)
    ensures Any(rows + [r], session, p) <==> Any(rows, session, p) || (r.Stats? && r.session == session && p(r))
  {
    var m := rows + [r];
    if r.Stats? && r.session == session && p(r) { assert Snapshot(m, session, r); }
    if Any(rows, session, p) {
      var q :| Snapshot(rows, session, q) && p(q);
      assert Snapshot(m, session, q);
    }
    if Any(m, session, p) {
      var q :| Snapshot(m, session, q) && p(q);
      assert q == r || Snapshot(rows, session, q);
    }
  }

  lemma MaxSnoc(rows: seq<Row>, r: Row, session: string, of: Row -> nat, m: nat)
    requires IsMax(rows, session, of, m)
    ensures IsMax(rows + [r], session, of, if r.Stats? && r.session == session then Max(m, of(r)) else m)
  {
    var n := if r.Stats? && r.session == session then Max(m, of(r)) else m;
    forall q | Snapshot(rows + [r], session, q) ensures of(q) <= n { assert q == r || Snapshot(rows, session, q); }
    AnySnoc(rows, r, session, q => of(q) == n);
    AnySnoc(rows, r, session, q => of(q) == m);
  }

  lemma StatsSnoc(rows: seq<Row>, r: Row, session: string, t: Totals)
    requires StatsFit(rows, session, t)
    ensures StatsFit(rows + [r], session, if r.Stats? && r.session == session then Merged(t, r) else t)
  {
    MaxSnoc(rows, r, session, DroppedOf, t.dropped);
    MaxSnoc(rows, r, session, RejectedOf, t.rejected);
    MaxSnoc(rows, r, session, LateOf, if t.late.Some? then t.late.value else 0);
    AnySnoc(rows, r, session, IsFinal);
    AnySnoc(rows, r, session, IsCaptured);
    AnySnoc(rows, r, session, IsDrained);
    AnySnoc(rows, r, session, HasLate);
    AnySnoc(rows, r, session, IsLateKnown);
    FinalCovers(rows, session);
  }

  lemma FinalCovers(rows: seq<Row>, session: string)
    ensures Any(rows, session, IsFinal) ==> Any(rows, session, IsCaptured) && Any(rows, session, IsDrained)
  {
  }

  lemma NoSnapshots(rows: seq<Row>, session: string)
    requires forall r :: !Snapshot(rows, session, r)
    ensures StatsFit(rows, session, NO_STATS)
  {
  }

  lemma StatsKeep(rows: seq<Row>, s: State, r: Row, limits: Limits, session: string)
    requires Inv(rows, s, limits)
    ensures StatsOk(rows + [r], Record(s, r, limits), session)
  {
    var m, n := rows + [r], Record(s, r, limits);
    assert StatsOk(rows, s, session);
    AnySnoc(rows, r, session, IsRow);
    if session in n.sessions && session !in s.stats {
      forall q ensures !Snapshot(rows, session, q) {
        if session !in s.sessions && q in rows {
          var i :| 0 <= i < |rows| && rows[i] == q;
        }
      }
      NoSnapshots(rows, session);
      StatsSnoc(rows, r, session, NO_STATS);
      forall q | !(r.Stats? && r.session == session)
        ensures !Snapshot(m, session, q)
      {
        assert !Snapshot(rows, session, q);
      }
    }
    if session in s.stats { StatsSnoc(rows, r, session, s.stats[session]); }
  }

  lemma InvRecord(rows: seq<Row>, s: State, r: Row, limits: Limits)
    requires Inv(rows, s, limits)
    ensures Inv(rows + [r], Record(s, r, limits), limits)
  {
    var n := Record(s, r, limits);
    SessionsKeep(rows, s, r, limits);
    forall key | key in n.groups
      ensures GroupOk(rows + [r], key, n.groups[key])
    {
      GroupsKeep(rows, s, r, limits, key);
    }
    forall key ensures Retained(rows + [r], key, n, limits) { RetainedKeep(rows, s, r, limits, key); }
    forall session ensures StatsOk(rows + [r], n, session) { StatsKeep(rows, s, r, limits, session); }
    forall stage ensures Conserved(rows + [r], n, stage) {
      assert Conserved(rows, s, stage);
      ConservedKeep(rows, s, r, limits, stage);
    }
  }

  lemma InvNext(rows: seq<Row>, i: nat, s: State, limits: Limits)
    requires i < |rows| && Inv(rows[..i], s, limits)
    ensures Inv(rows[..i + 1], Record(s, rows[i], limits), limits)
  {
    assert rows[..i + 1] == rows[..i] + [rows[i]];
    InvRecord(rows[..i], s, rows[i], limits);
  }

  // ------------------------------------------------------- line order is immaterial

  ghost function KeysOf(rows: seq<Row>): set<Key> {
    set i | 0 <= i < |rows| && KeyOf(rows[i]).Some? :: KeyOf(rows[i]).value
  }

  ghost function SessionsOf(rows: seq<Row>): set<string> { set i | 0 <= i < |rows| :: rows[i].session }

  /** As many different keys and sessions as there is room for. */
  ghost predicate BelowCapacity(rows: seq<Row>, limits: Limits) {
    |KeysOf(rows)| <= limits.groups && |SessionsOf(rows)| <= limits.sessions
  }

  lemma ProperSubset<T>(a: set<T>, b: set<T>, x: T)
    requires a <= b && x in b && x !in a
    ensures |a| < |b|
  {
    SubsetSize(a, b - {x});
  }

  lemma {:induction false} SubsetSize<T>(a: set<T>, b: set<T>)
    requires a <= b
    ensures |a| <= |b|
    decreases |a|
  {
    if a != {} {
      var x :| x in a;
      SubsetSize(a - {x}, b - {x});
    }
  }

  /** Below capacity nothing is left out. */
  lemma Complete(rows: seq<Row>, s: State, limits: Limits)
    requires Inv(rows, s, limits) && BelowCapacity(rows, limits)
    ensures s.sessions == SessionsOf(rows) && s.groups.Keys == KeysOf(rows)
  {
    assert s.sessions <= SessionsOf(rows) && s.groups.Keys <= KeysOf(rows);
    forall x | x in SessionsOf(rows) ensures x in s.sessions {
      if x !in s.sessions { ProperSubset(s.sessions, SessionsOf(rows), x); }
    }
    forall key | key in KeysOf(rows) ensures key in s.groups {
      var i :| 0 <= i < |rows| && KeyOf(rows[i]) == Some(key);
      FirstOccurs(rows, i, key);
      assert Retained(rows, key, s, limits);
      assert rows[i].session in SessionsOf(rows);
      if key !in s.groups { ProperSubset(s.groups.Keys, KeysOf(rows), key); }
    }
  }

  lemma {:induction false} FirstOccurs(rows: seq<Row>, i: nat, key: Key)
    requires i < |rows| && KeyOf(rows[i]) == Some(key)
    ensures First(rows, key, rows[i].stage).Some?
    decreases |rows|
  {
    if i < |rows| - 1 { FirstOccurs(rows[..|rows| - 1], i, key); }
  }

  lemma {:induction false} CountRemoved(rows: seq<Row>, i: nat, key: Key, stage: Stage)
    requires i < |rows|
    ensures Count(rows, key, stage) == Count(rows[..i] + rows[i + 1..], key, stage) + Hit(Matches(rows[i], key, stage))
    decreases |rows|
  {
    var n, rest := |rows| - 1, rows[..i] + rows[i + 1..];
    if i == n {
      assert rest == rows[..n];
    } else {
      var front := rows[..n];
      CountRemoved(front, i, key, stage);
      assert rest == front[..i] + front[i + 1..] + [rows[n]];
      Snoc(front[..i] + front[i + 1..], rows[n], key, stage);
    }
  }

  lemma Without(b: seq<Row>, i: nat)
    requires i < |b|
    ensures multiset(b[..i] + b[i + 1..]) == multiset(b) - multiset{b[i]}
  {
    assert b == b[..i] + [b[i]] + b[i + 1..];
  }

  lemma RemoveBoth(a: seq<Row>, b: seq<Row>, n: nat, i: nat)
    requires multiset(a) == multiset(b) && n == |a| - 1 && i < |b| && a[n] == b[i]
    ensures multiset(a[..n]) == multiset(b[..i] + b[i + 1..])
  {
    Without(a, n);
    Without(b, i);
    assert a[..n] + a[n + 1..] == a[..n];
  }

  /** Counting depends only on which rows there are. */
  lemma {:induction false} CountPermuted(a: seq<Row>, b: seq<Row>, key: Key, stage: Stage)
    requires multiset(a) == multiset(b)
    ensures Count(a, key, stage) == Count(b, key, stage)
    decreases |a|
  {
    if a == [] {
      assert |multiset(b)| == 0;
    } else {
      var n := |a| - 1;
      assert a[n] in multiset(b);
      var i :| 0 <= i < |b| && b[i] == a[n];
      RemoveBoth(a, b, n, i);
      CountRemoved(b, i, key, stage);
      CountPermuted(a[..n], b[..i] + b[i + 1..], key, stage);
    }
  }

  /** The first event is an event of the key at the stage. */
  lemma {:induction false} FirstIs(rows: seq<Row>, key: Key, stage: Stage) returns (r: Row)
    requires First(rows, key, stage).Some?
    ensures r in rows && Matches(r, key, stage) && First(rows, key, stage) == Some(r.seen)
  {
    var before := rows[..|rows| - 1];
    if First(before, key, stage).Some? { r := FirstIs(before, key, stage); } else { r := rows[|rows| - 1]; }
  }

  lemma {:induction false} OnlyOne(rows: seq<Row>, key: Key, stage: Stage, r: Row)
    requires Count(rows, key, stage) == 1 && r in rows && Matches(r, key, stage)
    ensures First(rows, key, stage) == Some(r.seen)
    decreases |rows|
  {
    var i :| 0 <= i < |rows| && rows[i] == r;
    CountRemoved(rows, i, key, stage);
    FirstCounts(rows, key, stage);
    var q := FirstIs(rows, key, stage);
    var j :| 0 <= j < |rows| && rows[j] == q;
    if i != j {
      var rest := rows[..i] + rows[i + 1..];
      assert rest[if j < i then j else j - 1] == q;
      CountOccurs(rest, if j < i then j else j - 1, key, stage);
    }
  }

  lemma CountOccurs(rows: seq<Row>, i: nat, key: Key, stage: Stage)
    requires i < |rows| && Matches(rows[i], key, stage)
    ensures Count(rows, key, stage) > 0
  {
    CountRemoved(rows, i, key, stage);
  }

  /** Two groups no metric can tell apart: the same counts, and the same event
      wherever there is just one. */
  predicate Alike(g: Group, h: Group) {
    && g.Keys == h.Keys
    && forall stage | stage in g :: g[stage].count == h[stage].count && (g[stage].count == 1 ==> g[stage] == h[stage])
  }

  lemma CellsPermuted(a: seq<Row>, b: seq<Row>, key: Key, stage: Stage)
    requires multiset(a) == multiset(b)
    ensures var x, y := CellOf(a, key, stage), CellOf(b, key, stage);
            (x.Some? <==> y.Some?) && (x.Some? ==> x.value.count == y.value.count && (x.value.count == 1 ==> x == y))
  {
    CountPermuted(a, b, key, stage);
    FirstCounts(a, key, stage);
    FirstCounts(b, key, stage);
    if Count(a, key, stage) == 1 {
      var r := FirstIs(a, key, stage);
      assert r in multiset(b);
      OnlyOne(b, key, stage, r);
    }
  }

  lemma GroupsAlike(a: seq<Row>, b: seq<Row>, key: Key, g: Group, h: Group)
    requires multiset(a) == multiset(b) && GroupOk(a, key, g) && GroupOk(b, key, h)
    ensures Alike(g, h)
  {
    forall stage
      ensures (stage in g <==> stage in h)
      ensures (stage in g ==> g[stage].count == h[stage].count && (g[stage].count == 1 ==> g[stage] == h[stage]))
    {
      CellsPermuted(a, b, key, stage);
      assert CellIn(g, stage) == CellOf(a, key, stage) && CellIn(h, stage) == CellOf(b, key, stage);
    }
  }

  lemma AnyPermuted(a: seq<Row>, b: seq<Row>, session: string, p: Row -> bool)
    requires forall r :: Snapshot(a, session, r) <==> Snapshot(b, session, r)
    ensures Any(a, session, p) <==> Any(b, session, p)
  {
  }

  lemma MaxUnique(a: seq<Row>, b: seq<Row>, session: string, of: Row -> nat, m: nat, n: nat)
    requires forall r :: Snapshot(a, session, r) <==> Snapshot(b, session, r)
    requires IsMax(a, session, of, m) && IsMax(b, session, of, n)
    ensures m == n
  {
    if m > 0 {
      var r :| Snapshot(a, session, r) && of(r) == m;
      assert Snapshot(b, session, r);
    }
    if n > 0 {
      var r :| Snapshot(b, session, r) && of(r) == n;
      assert Snapshot(a, session, r);
    }
  }

  lemma StatsUnique(a: seq<Row>, b: seq<Row>, session: string, t: Totals, u: Totals)
    requires forall r :: Snapshot(a, session, r) <==> Snapshot(b, session, r)
    requires StatsFit(a, session, t) && StatsFit(b, session, u)
    ensures t == u
  {
    MaxUnique(a, b, session, DroppedOf, t.dropped, u.dropped);
    MaxUnique(a, b, session, RejectedOf, t.rejected, u.rejected);
    MaxUnique(a, b, session, LateOf, if t.late.Some? then t.late.value else 0,
              if u.late.Some? then u.late.value else 0);
    AnyPermuted(a, b, session, IsFinal);
    AnyPermuted(a, b, session, IsCaptured);
    AnyPermuted(a, b, session, IsDrained);
    AnyPermuted(a, b, session, HasLate);
    AnyPermuted(a, b, session, IsLateKnown);
  }

  // --------------------------------------------------------------------- metrics

  datatype Outcome = Missing | Ambiguous | CrossClock | WindowConflict | ReversedTime | Span(clock: string, ns: int)

  /** What a group contributes to the metric over a span of stages. */
  function OutcomeOf(g: Group, span: seq<Stage>): Outcome
    requires span != []
  {
    if exists i | 0 <= i < |span| :: span[i] !in g then Missing
    else if exists i | 0 <= i < |span| :: g[span[i]].count != 1 then Ambiguous
    else ChainOutcome(seq(|span|, i requires 0 <= i < |span| && span[i] in g => g[span[i]].first))
  }

  function ChainOutcome(chain: seq<Seen>): Outcome
    requires chain != []
  {
    if exists i | 0 <= i < |chain| :: chain[i].clock != chain[0].clock then CrossClock
    else if exists i, j | 0 <= i < j < |chain| ::
              chain[i].window.Some? && chain[j].window.Some? && chain[i].window != chain[j].window then WindowConflict
    else if exists i | 0 < i < |chain| :: chain[i].time < chain[i - 1].time then ReversedTime
    else Span(chain[0].clock, chain[|chain| - 1].time - chain[0].time)
  }

  lemma SameOutcome(g: Group, h: Group, span: seq<Stage>)
    requires Alike(g, h) && span != []
    ensures OutcomeOf(g, span) == OutcomeOf(h, span)
  {
    if (forall i | 0 <= i < |span| :: span[i] in g) && (forall i | 0 <= i < |span| :: g[span[i]].count == 1) {
      assert seq(|span|, i requires 0 <= i < |span| && span[i] in g => g[span[i]].first) ==
             seq(|span|, i requires 0 <= i < |span| && span[i] in h => h[span[i]].first);
    }
  }

  ghost function Outcomes(groups: map<Key, Group>, span: seq<Stage>): map<Key, Outcome>
    requires span != []
  {
    map key | key in groups :: OutcomeOf(groups[key], span)
  }

  /** Counts the groups that give this very sample. */
  function Sample(clock: string, ns: int): Outcome -> nat { (o: Outcome) => if o == Span(clock, ns) then 1 else 0 }

  function Listed(metrics: map<string, seq<int>>, clock: string): seq<int> {
    if clock in metrics then metrics[clock] else []
  }

  function Appended(metrics: map<string, seq<int>>, o: Outcome): map<string, seq<int>> {
    if o.Span? then metrics[o.clock := Listed(metrics, o.clock) + [o.ns]] else metrics
  }

  lemma AppendedCounts(metrics: map<string, seq<int>>, o: Outcome, clock: string, ns: int)
    ensures multiset(Listed(Appended(metrics, o), clock))[ns] ==
            multiset(Listed(metrics, clock))[ns] + Sample(clock, ns)(o)
  {
  }

  /** One group's sample moves from what is left to the lists. */
  lemma Moved(left: map<Key, Group>, span: seq<Stage>, key: Key, metrics: map<string, seq<int>>, clock: string, ns: int)
    requires span != [] && key in left
    ensures var after := Appended(metrics, OutcomeOf(left[key], span));
            multiset(Listed(after, clock))[ns] + Total(Outcomes(left - {key}, span), Sample(clock, ns)) ==
            multiset(Listed(metrics, clock))[ns] + Total(Outcomes(left, span), Sample(clock, ns))
  {
    TotalRemove(Outcomes(left, span), Sample(clock, ns), key);
    assert Outcomes(left, span) - {key} == Outcomes(left - {key}, span);
    AppendedCounts(metrics, OutcomeOf(left[key], span), clock, ns);
  }

  /** The second pass, for one pair of stages, over the groups in any order: each
      clock's list holds exactly the samples of the groups that have one. */
  method Metrics(groups: map<Key, Group>, span: seq<Stage>) returns (metrics: map<string, seq<int>>)
    requires span != []
    ensures forall clock, ns :: multiset(Listed(metrics, clock))[ns] == Total(Outcomes(groups, span), Sample(clock, ns))
  {
    metrics := map[];
    var left := groups;
    while left != map[]
      invariant forall clock, ns ::
                  multiset(Listed(metrics, clock))[ns] + Total(Outcomes(left, span), Sample(clock, ns)) ==
                  Total(Outcomes(groups, span), Sample(clock, ns))
      decreases |left|
    {
      var key :| key in left;
      ghost var was := metrics;
      metrics := Appended(metrics, OutcomeOf(left[key], span));
      forall clock, ns
        ensures multiset(Listed(metrics, clock))[ns] + Total(Outcomes(left - {key}, span), Sample(clock, ns)) ==
                Total(Outcomes(groups, span), Sample(clock, ns))
      {
        Moved(left, span, key, was, clock, ns);
      }
      assert |left - {key}| < |left| by { assert (left - {key}).Keys == left.Keys - {key}; }
      left := left - {key};
    }
  }

  /** Below capacity the order of the lines does not matter: the same sessions, the
      same totals, the same groups as far as any metric can tell, and so the same
      samples of every metric. */
  lemma OrderIndependent(a: seq<Row>, b: seq<Row>, s: State, u: State, limits: Limits)
    requires multiset(a) == multiset(b) && Inv(a, s, limits) && Inv(b, u, limits) && BelowCapacity(a, limits)
    ensures s.sessions == u.sessions && s.stats == u.stats && s.groups.Keys == u.groups.Keys
    ensures forall key | key in s.groups :: Alike(s.groups[key], u.groups[key])
    ensures forall span | span != [] :: Outcomes(s.groups, span) == Outcomes(u.groups, span)
  {
    SameRows(a, b);
    Complete(a, s, limits);
    Complete(b, u, limits);
    SameTotals(a, b, s, u, limits);
    SameGroups(a, b, s, u, limits);
    forall span | span != [] ensures Outcomes(s.groups, span) == Outcomes(u.groups, span) {
      SameOutcomes(s.groups, u.groups, span);
    }
  }

  lemma SameGroups(a: seq<Row>, b: seq<Row>, s: State, u: State, limits: Limits)
    requires multiset(a) == multiset(b) && Inv(a, s, limits) && Inv(b, u, limits) && s.groups.Keys == u.groups.Keys
    ensures forall key | key in s.groups :: Alike(s.groups[key], u.groups[key])
  {
    forall key | key in s.groups ensures Alike(s.groups[key], u.groups[key]) {
      assert GroupOk(a, key, s.groups[key]) && GroupOk(b, key, u.groups[key]);
      GroupsAlike(a, b, key, s.groups[key], u.groups[key]);
    }
  }

  lemma SameOutcomes(g: map<Key, Group>, h: map<Key, Group>, span: seq<Stage>)
    requires span != [] && g.Keys == h.Keys && forall key | key in g :: Alike(g[key], h[key])
    ensures Outcomes(g, span) == Outcomes(h, span)
  {
    forall key | key in g
      ensures OutcomeOf(g[key], span) == OutcomeOf(h[key], span)
    {
      SameOutcome(g[key], h[key], span);
    }
  }

  lemma SameRows(a: seq<Row>, b: seq<Row>)
    requires multiset(a) == multiset(b)
    ensures KeysOf(a) == KeysOf(b) && SessionsOf(a) == SessionsOf(b)
    ensures forall r :: r in a <==> r in b
  {
    forall r ensures r in a <==> r in b { assert r in multiset(a) <==> r in multiset(b); }
    SubsetRows(a, b);
    SubsetRows(b, a);
  }

  lemma SubsetRows(a: seq<Row>, b: seq<Row>)
    requires forall r :: r in a ==> r in b
    ensures KeysOf(a) <= KeysOf(b) && SessionsOf(a) <= SessionsOf(b)
  {
    forall i | 0 <= i < |a| ensures exists j | 0 <= j < |b| :: b[j] == a[i] { assert a[i] in b; }
    forall key | key in KeysOf(a) ensures key in KeysOf(b) {
      var i :| 0 <= i < |a| && KeyOf(a[i]) == Some(key);
      var j :| 0 <= j < |b| && b[j] == a[i];
    }
    forall x | x in SessionsOf(a) ensures x in SessionsOf(b) {
      var i :| 0 <= i < |a| && a[i].session == x;
      var j :| 0 <= j < |b| && b[j] == a[i];
    }
  }

  lemma SameTotals(a: seq<Row>, b: seq<Row>, s: State, u: State, limits: Limits)
    requires (forall r :: r in a <==> r in b) && Inv(a, s, limits) && Inv(b, u, limits) && s.sessions == u.sessions
    ensures s.stats == u.stats
  {
    forall x ensures (x in s.stats <==> x in u.stats) && (x in s.stats ==> s.stats[x] == u.stats[x]) {
      assert StatsOk(a, s, x) && StatsOk(b, u, x);
      forall r ensures Snapshot(a, x, r) <==> Snapshot(b, x, r) { }
      AnyPermuted(a, b, x, IsRow);
      if x in s.stats && x in u.stats { StatsUnique(a, b, x, s.stats[x], u.stats[x]); }
    }
  }
}
