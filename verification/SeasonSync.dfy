/**
 The season download: up to ten seasons that are pending for this station are copied from the central table to the local
 one, and each is marked as fetched once it is written. Every SQL call may fail, also after it has taken effect.
 */
module SeasonSync {
  import opened SqlCall

  // Whether this station has fetched the season.
  datatype Season = Season(values: string, fetched: bool)

  datatype Row = Row(no: string, values: string)

  /** Central seasons by number, the local rows, and what this station had downloaded of each season it has marked. */
  datatype State = State(central: map<string, Season>, local: seq<Row>, taken: map<string, string>)

  const TOP := 10

  // ---------- Local rows ----------

  function RowsOf(local: seq<Row>, no: string): (rows: seq<Row>)
    ensures |rows| <= |local| && forall r :: r in rows ==> r.no == no
  {
    if local == [] then []
    else (if local[0].no == no then [local[0]] else []) + RowsOf(local[1..], no)
  }

  function Overwrite(local: seq<Row>, no: string, values: string): seq<Row> {
    seq(|local|, i requires 0 <= i < |local| => if local[i].no == no then Row(no, values) else local[i])
  }

  // An existing row is updated, a missing one inserted.
  function WriteRow(local: seq<Row>, no: string, values: string, r: Reply): seq<Row> {
    if !r.applied then local
    else if RowsOf(local, no) != [] then Overwrite(local, no, values)
    else local + [Row(no, values)]
  }

  // ---------- One season ----------

  // Whether the local row could be looked up, and what writing it and marking the season answered.
  datatype Replies = Replies(looked: bool, write: Reply, mark: Reply)

  function FetchOne(s: State, no: string, r: Replies): State
    requires no in s.central
  {
    var values := s.central[no].values;
    if !r.looked then s
    else
      var local := WriteRow(s.local, no, values, r.write);
      if r.write.ok && r.mark.applied then
        State(s.central[no := Season(values, true)], local, s.taken[no := values])
      else s.(local := local)
  }

  lemma KeepsNumbers(s: State, no: string, r: Replies)
    requires no in s.central
    ensures FetchOne(s, no, r).central.Keys == s.central.Keys
  {
  }

  predicate Counted(r: Replies) {
    r.looked && r.write.ok && r.mark.ok
  }

  function FetchAll(s: State, chosen: seq<string>, replies: seq<Replies>): State
    requires |replies| == |chosen| && forall no :: no in chosen ==> no in s.central
    decreases |chosen|
  {
    if chosen == [] then s else FetchAll(FetchOne(s, chosen[0], replies[0]), chosen[1..], replies[1..])
  }

  function CountAll(replies: seq<Replies>): nat {
    if replies == [] then 0 else (if Counted(replies[0]) then 1 else 0) + CountAll(replies[1..])
  }

  // ---------- One call ----------

  function Pending(central: map<string, Season>): set<string> {
    set no | no in central && !central[no].fetched
  }

  // Whether the count and the selection worked, the seasons selected, and what happened to each.
  datatype Call = Call(counted: bool, selected: bool, chosen: seq<string>, replies: seq<Replies>)

  function AtMostTop(n: nat): nat {
    if n <= TOP then n else TOP
  }

  predicate Distinct(chosen: seq<string>) {
    forall i, j :: 0 <= i < j < |chosen| ==> chosen[i] != chosen[j]
  }

  predicate HonestReplies(r: Replies) {
    Honest(r.write) && Honest(r.mark)
  }

  /** A call as the databases can answer it: the selection is any ten of the pending seasons, or all if there are fewer. */
  predicate Possible(central: map<string, Season>, call: Call) {
    && |call.replies| == |call.chosen| == AtMostTop(|Pending(central)|)
    && Distinct(call.chosen) && (forall no :: no in call.chosen ==> no in Pending(central))
    && (forall r :: r in call.replies ==> HonestReplies(r))
  }

  function Download(s: State, call: Call): State
    requires Possible(s.central, call)
  {
    if call.counted && call.selected then FetchAll(s, call.chosen, call.replies) else s
  }

  function DownloadCount(s: State, call: Call): int
    requires Possible(s.central, call)
  {
    if !call.counted || |Pending(s.central)| == 0 || !call.selected then -1 else CountAll(call.replies)
  }

  // ---------- The tables as the source updates them ----------

  class SeasonTables {
    var central: map<string, Season>
    var local: seq<Row>
    ghost var taken: map<string, string>

    ghost function Contents(): State
      reads this
    {
      State(central, local, taken)
    }

    constructor (central: map<string, Season>, local: seq<Row>)
      ensures Contents() == State(central, local, map[])
    {
      this.central, this.local, taken := central, local, map[];
    }

    method WriteSeason2Local(no: string, values: string, r: Replies) returns (ok: bool)
      modifies this`local
      ensures ok == (r.looked && r.write.ok)
      ensures local == if r.looked then WriteRow(old(local), no, values, r.write) else old(local)
    {
      if !r.looked { return false; }
      var found := RowsOf(local, no);
      if |found| > 0 {
        if r.write.applied { local := Overwrite(local, no, values); }
      } else {
        if r.write.applied { local := local + [Row(no, values)]; }
      }
      ok := r.write.ok;
    }

    // One of the selected seasons: written here, then marked as fetched.
    method FetchSeason(no: string, r: Replies) returns (counted: bool)
      requires no in central
      modifies this
      ensures Contents() == FetchOne(old(Contents()), no, r) && counted == Counted(r)
    {
      hide WriteRow;
      var values := central[no].values;
      var written := WriteSeason2Local(no, values, r);
      if !written { return false; }
      if r.mark.applied {
        central := central[no := Season(values, true)];
        taken := taken[no := values];
      }
      counted := r.mark.ok;
    }

    method DownloadSeason(call: Call) returns (count: int)
      requires Possible(central, call)
      modifies this
      ensures Contents() == Download(old(Contents()), call)
      ensures count == DownloadCount(old(Contents()), call)
    {
      if !call.counted { return -1; }
      if |Pending(central)| == 0 {
        assert call.chosen == [];
        return -1;
      }
      if !call.selected { return -1; }
      count := FetchSelected(call.chosen, call.replies);
    }

    method FetchSelected(chosen: seq<string>, replies: seq<Replies>) returns (count: nat)
      requires |replies| == |chosen| && forall no :: no in chosen ==> no in central
      modifies this
      ensures Contents() == FetchAll(old(Contents()), chosen, replies) && count == CountAll(replies)
    {
      hide FetchOne, Counted;
      count := 0;
      assert chosen[0..] == chosen && replies[0..] == replies;
      for j := 0 to |chosen|
        invariant forall no :: no in chosen[j..] ==> no in central
        invariant FetchAll(Contents(), chosen[j..], replies[j..]) == FetchAll(old(Contents()), chosen, replies)
        invariant count + CountAll(replies[j..]) == CountAll(replies)
      {
        assert chosen[j..][1..] == chosen[j + 1..] && replies[j..][1..] == replies[j + 1..];
        assert chosen[j] in chosen[j..] && forall no :: no in chosen[j + 1..] ==> no in chosen[j..];
        KeepsNumbers(Contents(), chosen[j], replies[j]);
        var counted := FetchSeason(chosen[j], replies[j]);
        if counted { count := count + 1; }
      }
    }
  }

  // ---------- What every run keeps ----------

  /** A season this station has marked as fetched has exactly one local row, with the values that were downloaded; and no
      season has two. */
  ghost predicate Kept(s: State) {
    && (forall no {:trigger RowsOf(s.local, no)} :: |RowsOf(s.local, no)| <= 1)
    && (forall no :: no in s.taken ==>
          no in s.central && s.central[no].fetched && RowsOf(s.local, no) == [Row(no, s.taken[no])])
  }

  lemma {:induction false} RowsOfAppended(local: seq<Row>, row: Row, no: string)
    ensures RowsOf(local + [row], no) == RowsOf(local, no) + if row.no == no then [row] else []
  {
    if local == [] {
      assert ([] + [row])[1..] == [];
    } else {
      assert (local + [row])[1..] == local[1..] + [row];
      RowsOfAppended(local[1..], row, no);
      var first, last := if local[0].no == no then [local[0]] else [], if row.no == no then [row] else [];
      assert RowsOf(local, no) == first + RowsOf(local[1..], no);
      assert RowsOf(local + [row], no) == first + RowsOf(local[1..] + [row], no);
      hide RowsOf;
      assert first + (RowsOf(local[1..], no) + last) == (first + RowsOf(local[1..], no)) + last;
    }
  }

  lemma {:induction false} RowsOfOverwritten(local: seq<Row>, no: string, values: string, other: string)
    ensures |RowsOf(Overwrite(local, no, values), other)| == |RowsOf(local, other)|
    ensures other != no ==> RowsOf(Overwrite(local, no, values), other) == RowsOf(local, other)
    ensures forall r :: r in RowsOf(Overwrite(local, no, values), no) ==> r == Row(no, values)
  {
    if local != [] {
      assert Overwrite(local, no, values)[1..] == Overwrite(local[1..], no, values);
      RowsOfOverwritten(local[1..], no, values, other);
    }
  }

  // Writing a season touches its rows only, and leaves exactly one of them with the values.
  lemma WriteRowOnly(local: seq<Row>, no: string, values: string, r: Reply, other: string)
    requires |RowsOf(local, other)| <= 1
    ensures var after := WriteRow(local, no, values, r);
            && |RowsOf(after, other)| <= 1
            && (other != no ==> RowsOf(after, other) == RowsOf(local, other))
            && (other == no && r.applied ==> RowsOf(after, no) == [Row(no, values)])
  {
    RowsOfOverwritten(local, no, values, other);
    RowsOfAppended(local, Row(no, values), other);
    var over := RowsOf(Overwrite(local, no, values), no);
    if over != [] { assert over[0] in over; }
  }

  lemma FetchOneKeeps(s: State, no: string, r: Replies)
    requires Kept(s) && no in Pending(s.central) && HonestReplies(r)
    ensures Kept(FetchOne(s, no, r))
    ensures Pending(FetchOne(s, no, r).central)
         == if r.looked && r.write.ok && r.mark.applied then Pending(s.central) - {no} else Pending(s.central)
  {
    var values := s.central[no].values;
    var after := WriteRow(s.local, no, values, r.write);
    forall other {:trigger RowsOf(after, other)} ensures
      && |RowsOf(after, other)| <= 1
      && (other != no ==> RowsOf(after, other) == RowsOf(s.local, other))
      && (other == no && r.write.applied ==> RowsOf(after, no) == [Row(no, values)])
    {
      WriteRowOnly(s.local, no, values, r.write, other);
    }
    hide WriteRow, RowsOf;
  }

  lemma {:induction false} FetchAllKeeps(s: State, chosen: seq<string>, replies: seq<Replies>)
    requires |replies| == |chosen| && Kept(s) && Distinct(chosen)
    requires forall no :: no in chosen ==> no in s.central && no in Pending(s.central)
    requires forall r :: r in replies ==> HonestReplies(r)
    ensures Kept(FetchAll(s, chosen, replies))
    decreases |chosen|
  {
    hide FetchOne, Kept, HonestReplies;
    if chosen != [] {
      assert replies[0] in replies && chosen[0] in chosen;
      FetchOneKeeps(s, chosen[0], replies[0]);
      KeepsNumbers(s, chosen[0], replies[0]);
      var next := FetchOne(s, chosen[0], replies[0]);
      assert forall no :: no in chosen[1..] ==> no in chosen && no != chosen[0];
      assert forall no :: no in chosen[1..] ==> no in next.central && no in Pending(next.central);
      assert forall r :: r in replies[1..] ==> r in replies;
      FetchAllKeeps(next, chosen[1..], replies[1..]);
    }
  }

  // Between calls the central seasons may be edited at will; a season that is no longer flagged is not taken any more.
  function Edit(s: State, central: map<string, Season>): State {
    State(central, s.local, map no | no in s.taken && no in central && central[no].fetched :: s.taken[no])
  }

  datatype Event = Called(call: Call) | Edited(central: map<string, Season>)

  predicate PossibleEvent(s: State, e: Event) {
    e.Called? ==> Possible(s.central, e.call)
  }

  function Step(s: State, e: Event): State
    requires PossibleEvent(s, e)
  {
    match e
    case Called(call) => Download(s, call)
    case Edited(central) => Edit(s, central)
  }

  predicate IsRun(s: State, events: seq<Event>)
    decreases |events|
  {
    events == [] || (PossibleEvent(s, events[0]) && IsRun(Step(s, events[0]), events[1..]))
  }

  function Final(s: State, events: seq<Event>): State
    requires IsRun(s, events)
    decreases |events|
  {
    if events == [] then s else Final(Step(s, events[0]), events[1..])
  }

  // A run takes its events one by one.
  lemma {:induction false} OneMore(s: State, events: seq<Event>, e: Event)
    requires IsRun(s, events) && PossibleEvent(Final(s, events), e)
    ensures IsRun(s, events + [e]) && Final(s, events + [e]) == Step(Final(s, events), e)
    decreases |events|
  {
    hide PossibleEvent, Step;
    if events == [] {
      assert events + [e] == [e] && [e][1..] == [];
      assert IsRun(Step(s, e), []) && Final(Step(s, e), []) == Step(s, e);
    } else {
      assert (events + [e])[1..] == events[1..] + [e] && (events + [e])[0] == events[0];
      OneMore(Step(s, events[0]), events[1..], e);
    }
  }

  lemma StepKeeps(s: State, e: Event)
    requires Kept(s) && PossibleEvent(s, e)
    ensures Kept(Step(s, e))
  {
    hide FetchAll;
    if e.Called? && e.call.counted && e.call.selected {
      FetchAllKeeps(s, e.call.chosen, e.call.replies);
      hide Kept;
    }
  }

  /** The download keeps its promise: over every run of calls, with any failures, and of central edits between them, every
      season this station has marked has exactly one local row with the values it downloaded. */
  lemma {:induction false} EveryRunKeeps(s: State, events: seq<Event>)
    requires Kept(s) && IsRun(s, events)
    ensures Kept(Final(s, events))
    decreases |events|
  {
    hide Step, PossibleEvent, Kept;
    if events != [] {
      StepKeeps(s, events[0]);
      EveryRunKeeps(Step(s, events[0]), events[1..]);
    }
  }

  // ---------- What is fetched and counted ----------

  /** One season: it is written if it could be looked up and the write took effect, marked if the write was reported and the mark
      took effect, and counted if both were reported. */
  lemma FetchOutcome(s: State, no: string, r: Replies)
    requires no in s.central && forall other {:trigger RowsOf(s.local, other)} :: |RowsOf(s.local, other)| <= 1
    ensures var after, values := FetchOne(s, no, r), s.central[no].values;
            && (r.looked && r.write.applied ==> RowsOf(after.local, no) == [Row(no, values)])
            && (!r.looked || !r.write.applied ==> after.local == s.local)
            && (r.looked && r.write.ok && r.mark.applied ==> after.central == s.central[no := Season(values, true)])
            && (!r.looked || !r.write.ok || !r.mark.applied ==> after.central == s.central)
            && (Counted(r) <==> r.looked && r.write.ok && r.mark.ok)
  {
    WriteRowOnly(s.local, no, s.central[no].values, r.write, no);
    hide RowsOf;
  }

  // Every state has a clean call.
  lemma CleanCallExists(central: map<string, Season>) returns (call: Call)
    ensures Possible(central, call) && Clean(call)
  {
    var n := AtMostTop(|Pending(central)|);
    var chosen := Choose(Pending(central), n);
    call := Call(true, true, chosen, seq(n, i => ALL_WORK));
  }

  lemma {:induction false} Choose(pending: set<string>, n: nat) returns (chosen: seq<string>)
    requires n <= |pending|
    ensures |chosen| == n && Distinct(chosen) && forall no :: no in chosen ==> no in pending
  {
    chosen := [];
    if n > 0 {
      var no :| no in pending;
      var rest := Choose(pending - {no}, n - 1);
      chosen := [no] + rest;
    }
  }

  // A call whose count or selection fails, or that finds nothing pending, changes nothing.
  lemma EmptyCall(s: State, call: Call)
    requires Possible(s.central, call) && (!call.counted || !call.selected || Pending(s.central) == {})
    ensures Download(s, call) == s && DownloadCount(s, call) == -1
  {
    assert Pending(s.central) == {} ==> call.chosen == [];
  }

  // Every mark that took effect was reported.
  predicate NoLostMark(r: Replies) {
    r.mark.applied ==> r.mark.ok
  }

  lemma HonestMark(r: Replies)
    requires HonestReplies(r)
    ensures r.mark.ok ==> r.mark.applied
  {
  }

  lemma {:induction false} CountFetched(s: State, chosen: seq<string>, replies: seq<Replies>)
    requires |replies| == |chosen| && Kept(s) && Distinct(chosen)
    requires forall no :: no in chosen ==> no in s.central && no in Pending(s.central)
    requires forall r :: r in replies ==> HonestReplies(r)
    ensures var left := |Pending(FetchAll(s, chosen, replies).central)|;
            && CountAll(replies) <= |Pending(s.central)| - left
            && ((forall r :: r in replies ==> NoLostMark(r)) ==> CountAll(replies) == |Pending(s.central)| - left)
    decreases |chosen|
  {
    hide FetchOne, Kept, HonestReplies;
    if chosen != [] {
      assert replies[0] in replies && chosen[0] in chosen;
      assert replies[0].mark.ok ==> replies[0].mark.applied by { HonestMark(replies[0]); }
      FetchOneKeeps(s, chosen[0], replies[0]);
      KeepsNumbers(s, chosen[0], replies[0]);
      var next := FetchOne(s, chosen[0], replies[0]);
      assert forall no :: no in chosen[1..] ==> no in chosen && no != chosen[0];
      assert forall no :: no in chosen[1..] ==> no in next.central && no in Pending(next.central);
      assert forall r :: r in replies[1..] ==> r in replies;
      CountFetched(next, chosen[1..], replies[1..]);
    }
  }

  /** The count of a call is never more than the seasons it has marked, and is their number if no mark took effect unreported. */
  lemma CountIsMarked(s: State, call: Call)
    requires Kept(s) && Possible(s.central, call) && call.counted && call.selected && Pending(s.central) != {}
    ensures var marked := |Pending(s.central)| - |Pending(Download(s, call).central)|;
            && 0 <= DownloadCount(s, call) <= marked
            && ((forall r :: r in call.replies ==> NoLostMark(r)) ==> DownloadCount(s, call) == marked)
  {
    CountFetched(s, call.chosen, call.replies);
    hide FetchAll, Kept, Pending;
  }

  // ---------- Without failures ----------

  const ALL_WORK := Replies(true, WORKS, WORKS)

  predicate Clean(call: Call) {
    call.counted && call.selected && forall r :: r in call.replies ==> r == ALL_WORK
  }

  function SetOf(chosen: seq<string>): set<string> {
    set no | no in chosen
  }

  // What a season's local row is after a clean fetch of some seasons.
  lemma {:induction false} CleanFetch(s: State, chosen: seq<string>, replies: seq<Replies>)
    requires |replies| == |chosen| && Kept(s) && Distinct(chosen)
    requires forall no :: no in chosen ==> no in s.central && no in Pending(s.central)
    requires forall r :: r in replies ==> r == ALL_WORK
    ensures var after := FetchAll(s, chosen, replies);
            && Pending(after.central) == Pending(s.central) - SetOf(chosen)
            && after.taken.Keys == s.taken.Keys + SetOf(chosen)
            && CountAll(replies) == |chosen|
    decreases |chosen|
  {
    hide Kept;
    if chosen != [] {
      assert replies[0] in replies && chosen[0] in chosen;
      FetchOneKeeps(s, chosen[0], replies[0]);
      hide Pending;
      assert forall no :: no in chosen[1..] ==> no in chosen && no != chosen[0];
      assert SetOf(chosen) == {chosen[0]} + SetOf(chosen[1..]);
      assert forall r :: r in replies[1..] ==> r in replies;
      CleanFetch(FetchOne(s, chosen[0], replies[0]), chosen[1..], replies[1..]);
    }
  }

  lemma {:induction false} DistinctSize(chosen: seq<string>)
    requires Distinct(chosen)
    ensures |SetOf(chosen)| == |chosen|
  {
    if chosen != [] {
      DistinctSize(chosen[1..]);
      assert SetOf(chosen) == {chosen[0]} + SetOf(chosen[1..]);
    }
  }

  /** A clean call downloads ten of the pending seasons, or all if there are fewer, and says how many. */
  lemma CleanCall(s: State, call: Call)
    requires Kept(s) && Possible(s.central, call) && Clean(call)
    ensures var after := Download(s, call);
            && Pending(after.central) == Pending(s.central) - SetOf(call.chosen)
            && |Pending(after.central)| == |Pending(s.central)| - AtMostTop(|Pending(s.central)|)
            && after.taken.Keys == s.taken.Keys + SetOf(call.chosen)
            && DownloadCount(s, call) == if |Pending(s.central)| == 0 then -1 else AtMostTop(|Pending(s.central)|)
  {
    CleanFetch(s, call.chosen, call.replies);
    DistinctSize(call.chosen);
    hide FetchAll, Kept, Pending;
    assert SetOf(call.chosen) <= Pending(s.central);
  }

  predicate CleanRun(s: State, calls: seq<Call>)
    decreases |calls|
  {
    calls == []
    || (Possible(s.central, calls[0]) && Clean(calls[0]) && CleanRun(Download(s, calls[0]), calls[1..]))
  }

  function AfterCalls(s: State, calls: seq<Call>): State
    requires CleanRun(s, calls)
    decreases |calls|
  {
    if calls == [] then s else AfterCalls(Download(s, calls[0]), calls[1..])
  }

  /** Clean calls drain ten seasons each: n pending seasons are gone after n / 10 calls, rounded up, and no sooner. */
  lemma {:induction false} DrainsInCalls(s: State, calls: seq<Call>)
    requires Kept(s) && CleanRun(s, calls)
    ensures var n := |Pending(s.central)|;
            && |Pending(AfterCalls(s, calls).central)| == (if n <= 10 * |calls| then 0 else n - 10 * |calls|)
            && (Pending(AfterCalls(s, calls).central) == {} <==> |calls| >= (n + 9) / 10)
    decreases |calls|
  {
    hide Pending, Kept, Download, Possible, Clean;
    if calls != [] {
      CleanCall(s, calls[0]);
      StepKeeps(s, Called(calls[0]));
      assert Step(s, Called(calls[0])) == Download(s, calls[0]);
      DrainsInCalls(Download(s, calls[0]), calls[1..]);
    }
  }

  // ---------- The two tables agree ----------

  // What was taken of a season is what the central table has; every season that is not pending was taken.
  ghost predicate UpToDate(s: State) {
    && (forall no :: no in s.taken ==> no in s.central && s.taken[no] == s.central[no].values)
    && (forall no :: no in s.central ==> no in Pending(s.central) || no in s.taken)
  }

  predicate SameValues(central: map<string, Season>, after: map<string, Season>) {
    after.Keys == central.Keys && forall no :: no in central ==> after[no].values == central[no].values
  }

  lemma {:induction false} FetchAllUpToDate(s: State, chosen: seq<string>, replies: seq<Replies>)
    requires |replies| == |chosen| && forall no :: no in chosen ==> no in s.central
    requires UpToDate(s)
    ensures var after := FetchAll(s, chosen, replies); UpToDate(after) && SameValues(s.central, after.central)
    decreases |chosen|
  {
    if chosen != [] {
      hide WriteRow;
      FetchAllUpToDate(FetchOne(s, chosen[0], replies[0]), chosen[1..], replies[1..]);
    }
  }

  lemma {:induction false} CallsUpToDate(s: State, calls: seq<Call>)
    requires Kept(s) && UpToDate(s) && CleanRun(s, calls)
    ensures var after := AfterCalls(s, calls); Kept(after) && UpToDate(after) && SameValues(s.central, after.central)
    decreases |calls|
  {
    if calls != [] {
      assert Possible(s.central, calls[0]);
      FetchAllUpToDate(s, calls[0].chosen, calls[0].replies);
      hide Kept, UpToDate, FetchAll;
      StepKeeps(s, Called(calls[0]));
      CallsUpToDate(Download(s, calls[0]), calls[1..]);
    }
  }

  /** Once drained, the local table is a copy: every central season has exactly one local row, with the central values. */
  lemma DrainedIsCopied(s: State, calls: seq<Call>)
    requires Kept(s) && UpToDate(s) && CleanRun(s, calls)
    requires |calls| >= (|Pending(s.central)| + 9) / 10
    ensures forall no :: no in s.central ==>
              RowsOf(AfterCalls(s, calls).local, no) == [Row(no, s.central[no].values)]
  {
    DrainsInCalls(s, calls);
    CallsUpToDate(s, calls);
    hide AfterCalls, CleanRun, RowsOf;
  }
}
