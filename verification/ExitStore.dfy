/**
 Store and forward of exit transactions. A closed exit is inserted in the central table, or in the local one while the
 central database is away; upload workers on several threads later send the local rows and delete them by key. Every SQL
 call may fail, also after it has taken effect.
 */
module ExitStore {
  import opened SqlCall

  // Local rows are deleted by plate and exit time.
  datatype Key = Key(plate: string, exitTime: string)

  datatype Trans = Trans(key: Key, columns: string)

  datatype Store = Store(central: seq<Trans>, local: seq<Trans>)

  // ---------- Saving one exit ----------

  /** What the two connections answer while an exit is saved: whether the central connection's state is known and can be
      renewed, whether the local one is up or can be renewed, and the two inserts. */
  datatype Links = Links(
    centralKnown: bool, centralRenewed: bool, central: Reply, localUp: bool, localRenewed: bool, local: Reply)

  datatype DBError = CentralSuccess | CentralFail | LocalSuccess | LocalFail

  predicate Saved(e: DBError) {
    e.CentralSuccess? || e.LocalSuccess?
  }

  function Append(rows: seq<Trans>, t: Trans, r: Reply): seq<Trans> {
    if r.applied then rows + [t] else rows
  }

  function Insert(s: Store, t: Trans, links: Links): (Store, DBError) {
    if !links.centralKnown || links.centralRenewed then
      (s.(central := Append(s.central, t, links.central)), if links.central.ok then CentralSuccess else CentralFail)
    else if !links.localUp && !links.localRenewed then (s, LocalFail)
    else (s.(local := Append(s.local, t, links.local)), if links.local.ok then LocalSuccess else LocalFail)
  }

  // ---------- Uploading ----------

  // The rows without those of the key.
  function Without(rows: seq<Trans>, key: Key): (rest: seq<Trans>)
    ensures forall t :: t in rest <==> t in rows && t.key != key
    ensures |rest| <= |rows|
  {
    if rows == [] then []
    else
      var rest := Without(rows[1..], key);
      assert forall t :: t in rows <==> t == rows[0] || t in rows[1..];
      if rows[0].key == key then rest else [rows[0]] + rest
  }

  // Deleting from two lists in a row deletes from each: the other rows keep their number and order.
  lemma {:induction false} WithoutBoth(first: seq<Trans>, second: seq<Trans>, key: Key)
    ensures Without(first + second, key) == Without(first, key) + Without(second, key)
    decreases |first|
  {
    if first == [] {
      assert first + second == second;
    } else {
      assert (first + second)[1..] == first[1..] + second;
      WithoutBoth(first[1..], second, key);
    }
  }

  lemma WithoutOne(t: Trans, key: Key)
    ensures Without([t], key) == if t.key == key then [] else [t]
  {
    assert [t][1..] == [];
  }

  function Send(s: Store, t: Trans, r: Reply): Store {
    s.(central := Append(s.central, t, r))
  }

  function Delete(s: Store, key: Key, r: Reply): Store {
    if r.applied then s.(local := Without(s.local, key)) else s
  }

  // What happens to one row of a round: its columns cannot be read as numbers, or it is sent and, if that is reported to
  // have worked, deleted.
  datatype Turn = Unreadable | Turn(insert: Reply, delete: Reply)

  function Forward(s: Store, t: Trans, turn: Turn): Store
    requires turn.Turn?
  {
    var sent := Send(s, t, turn.insert);
    if turn.insert.ok then Delete(sent, t.key, turn.delete) else sent
  }

  // The central table can be reached unless its connection is known to be down and cannot be renewed.
  predicate Reachable(links: Links) {
    links.centralKnown ==> links.centralRenewed
  }

  /** A save writes one table only: the central one if it can be reached, or else the local one, if that is up or can be brought
      up; it succeeds if and only if the insert there is reported to have. */
  lemma SaveOutcome(s: Store, t: Trans, links: Links)
    ensures var (next, result) := Insert(s, t, links);
            && (Reachable(links) ==>
                  && next.local == s.local && next.central == s.central + (if links.central.applied then [t] else [])
                  && result == if links.central.ok then CentralSuccess else CentralFail)
            && (!Reachable(links) && (links.localUp || links.localRenewed) ==>
                  && next.central == s.central && next.local == s.local + (if links.local.applied then [t] else [])
                  && result == if links.local.ok then LocalSuccess else LocalFail)
            && (!Reachable(links) && !links.localUp && !links.localRenewed ==> next == s && result == LocalFail)
            && (Saved(result) <==> result == CentralSuccess || result == LocalSuccess)
  {
    assert s.local + [] == s.local && s.central + [] == s.central;
  }

  /** A row is deleted only once its insert was reported: an insert that took effect unreported leaves it in both tables, to be
      sent again. */
  lemma ForwardOutcome(s: Store, t: Trans, insert: Reply, delete: Reply)
    ensures var next := Forward(s, t, Turn(insert, delete));
            && next.central == s.central + (if insert.applied then [t] else [])
            && next.local == if insert.ok && delete.applied then Without(s.local, t.key) else s.local
  {
    assert s.central + [] == s.central;
  }

  // One round of one worker, alone: an unreadable row ends it.
  function Round(s: Store, rows: seq<Trans>, turns: seq<Turn>): Store
    requires |turns| == |rows|
    decreases |rows|
  {
    if rows == [] || turns[0].Unreadable? then s
    else Round(Forward(s, rows[0], turns[0]), rows[1..], turns[1..])
  }

  // ---------- The tables as the source updates them ----------

  class Tables {
    var central: seq<Trans>
    var local: seq<Trans>

    function Contents(): Store
      reads this
    {
      Store(central, local)
    }

    constructor ()
      ensures Contents() == Store([], [])
    {
      central, local := [], [];
    }

    method InsertExitTrans(t: Trans, links: Links) returns (result: DBError)
      modifies this
      ensures (Contents(), result) == Insert(old(Contents()), t, links)
    {
      var reachable := true;
      if links.centralKnown {
        reachable := links.centralRenewed;
      }
      if reachable {
        if links.central.applied { central := central + [t]; }
        return if links.central.ok then CentralSuccess else CentralFail;
      }
      if !links.localUp {
        if !links.localRenewed { return LocalFail; }
      }
      if links.local.applied { local := local + [t]; }
      result := if links.local.ok then LocalSuccess else LocalFail;
    }

    method InsertTransToCentralExitTransTmp(t: Trans, r: Reply) returns (ok: bool)
      modifies this`central
      ensures Contents() == Send(old(Contents()), t, r) && ok == r.ok
    {
      if r.applied { central := central + [t]; }
      ok := r.ok;
    }

    method DeleteLocalTrans(key: Key, r: Reply) returns (ok: bool)
      modifies this`local
      ensures Contents() == Delete(old(Contents()), key, r) && ok == r.ok
    {
      if r.applied { local := Without(local, key); }
      ok := r.ok;
    }

    /** One upload round: the rows are counted, then selected, then sent one by one. A failed count or selection, or none to
        send, ends it. */
    method MoveOfflineTransToCentral(count: nat, counted: bool, selected: bool, rows: seq<Trans>, turns: seq<Turn>)
      requires |turns| == |rows|
      requires counted ==> count == |local|
      requires selected ==> multiset(rows) == multiset(local)
      modifies this
      ensures Contents() == if counted && selected && |old(local)| > 0 then Round(old(Contents()), rows, turns)
                            else old(Contents())
    {
      if !counted || count == 0 { return; }
      if !selected { return; }
      assert rows[0..] == rows && turns[0..] == turns;
      for j := 0 to |rows|
        invariant Round(Contents(), rows[j..], turns[j..]) == Round(old(Contents()), rows, turns)
      {
        if turns[j].Unreadable? { return; }
        assert rows[j..][1..] == rows[j + 1..] && turns[j..][1..] == turns[j + 1..];
        var sent := InsertTransToCentralExitTransTmp(rows[j], turns[j].insert);
        if sent {
          var _ := DeleteLocalTrans(rows[j].key, turns[j].delete);
        }
      }
    }
  }

  // ---------- One round alone ----------

  predicate HonestTurns(turns: seq<Turn>) {
    forall i :: 0 <= i < |turns| && turns[i].Turn? ==> Honest(turns[i].insert) && Honest(turns[i].delete)
  }

  /** A row is in one of the tables. */
  predicate Holds(s: Store, t: Trans) {
    t in s.central || t in s.local
  }

  predicate HasKey(rows: seq<Trans>, key: Key) {
    exists t :: t in rows && t.key == key
  }

  predicate HoldsKey(s: Store, key: Key) {
    HasKey(s.central, key) || HasKey(s.local, key)
  }

  predicate KeysTell(rows: seq<Trans>) {
    forall t, u :: t in rows && u in rows && t.key == u.key ==> t == u
  }

  /** A row that cannot be read ends the round: those before it have been sent, and no other. */
  lemma {:induction false} RoundStops(s: Store, rows: seq<Trans>, turns: seq<Turn>, k: nat)
    requires |turns| == |rows| && k < |rows| && turns[k].Unreadable? && forall i :: 0 <= i < k ==> turns[i].Turn?
    ensures Round(s, rows, turns) == Round(s, rows[..k], turns[..k])
    decreases k
  {
    if k > 0 {
      assert rows[..k][1..] == rows[1..][..k - 1] && turns[..k][1..] == turns[1..][..k - 1];
      RoundStops(Forward(s, rows[0], turns[0]), rows[1..], turns[1..], k - 1);
    }
  }

  function AllOk(n: nat): seq<Turn> {
    seq(n, i => Turn(WORKS, WORKS))
  }

  lemma {:induction false} AllOkRound(s: Store, rows: seq<Trans>)
    ensures var after := Round(s, rows, AllOk(|rows|));
            && after.central == s.central + rows
            && forall t :: t in after.local <==> t in s.local && !HasKey(rows, t.key)
    decreases |rows|
  {
    if rows != [] {
      var next := Forward(s, rows[0], AllOk(|rows|)[0]);
      assert AllOk(|rows|)[1..] == AllOk(|rows| - 1);
      AllOkRound(next, rows[1..]);
      assert next.central + rows[1..] == s.central + rows;
      assert forall t :: t in rows <==> t == rows[0] || t in rows[1..];
    }
  }

  lemma HasFirst(rows: seq<Trans>)
    requires rows != []
    ensures exists t :: t in rows
  {
    assert rows[0] in rows;
  }

  /** A round without failures sends every row once and leaves none behind. */
  lemma RoundDrains(s: Store, rows: seq<Trans>)
    requires multiset(rows) == multiset(s.local)
    ensures Round(s, rows, AllOk(|rows|)) == Store(s.central + rows, [])
  {
    AllOkRound(s, rows);
    var after := Round(s, rows, AllOk(|rows|));
    forall t | t in s.local ensures HasKey(rows, t.key) {
      assert t in multiset(s.local);
    }
    if after.local != [] { HasFirst(after.local); }
  }

  // A round loses no row that is in a table when the rows it sends are told apart by their keys.
  lemma {:induction false} RoundHolds(s: Store, rows: seq<Trans>, turns: seq<Turn>, t: Trans)
    requires |turns| == |rows| && HonestTurns(turns) && Holds(s, t)
    requires forall u :: u in rows && u.key == t.key ==> u == t
    ensures Holds(Round(s, rows, turns), t)
    decreases |rows|
  {
    if rows != [] && turns[0].Turn? {
      assert rows[0] in rows && forall u :: u in rows[1..] ==> u in rows;
      RoundHolds(Forward(s, rows[0], turns[0]), rows[1..], turns[1..], t);
    }
  }

  /** No row of the round is lost, whatever fails. */
  ghost predicate RoundKeepsRows(s: Store, rows: seq<Trans>) {
    forall turns, t :: |turns| == |rows| && HonestTurns(turns) && t in s.local ==> Holds(Round(s, rows, turns), t)
  }

  // Only the i-th row is sent.
  function OnlyRow(n: nat, i: nat): seq<Turn> {
    seq(n, k => if k == i then Turn(WORKS, WORKS)
                else Turn(FAILS, FAILS))
  }

  lemma {:induction false} OnlyRowRound(s: Store, rows: seq<Trans>, i: nat)
    requires i < |rows|
    ensures Round(s, rows, OnlyRow(|rows|, i)) == Store(s.central + [rows[i]], Without(s.local, rows[i].key))
    decreases |rows|
  {
    if i == 0 {
      NothingSent(Forward(s, rows[0], OnlyRow(|rows|, i)[0]), rows[1..], OnlyRow(|rows|, i)[1..]);
    } else {
      assert OnlyRow(|rows|, i)[1..] == OnlyRow(|rows| - 1, i - 1);
      OnlyRowRound(s, rows[1..], i - 1);
    }
  }

  lemma {:induction false} NothingSent(s: Store, rows: seq<Trans>, turns: seq<Turn>)
    requires |turns| == |rows|
    requires forall i :: 0 <= i < |turns| ==> turns[i] == Turn(FAILS, FAILS)
    ensures Round(s, rows, turns) == s
    decreases |rows|
  {
    if rows != [] { NothingSent(s, rows[1..], turns[1..]); }
  }

  lemma OnlyRowHonest(n: nat, i: nat)
    ensures |OnlyRow(n, i)| == n && HonestTurns(OnlyRow(n, i))
  {
  }

  /** A round keeps every row, whatever fails, exactly when no two different rows share a plate and exit time. */
  lemma RoundKeepsRowsExactly(s: Store, rows: seq<Trans>)
    requires multiset(rows) == multiset(s.local)
    requires forall t :: t in s.local ==> t !in s.central
    ensures RoundKeepsRows(s, rows) <==> KeysTell(s.local)
  {
    assert forall t :: t in rows <==> t in multiset(rows);
    assert forall t :: t in s.local <==> t in multiset(s.local);
    hide Round, HonestTurns;
    if KeysTell(s.local) {
      forall turns, t | |turns| == |rows| && HonestTurns(turns) && t in s.local ensures Holds(Round(s, rows, turns), t) {
        RoundHolds(s, rows, turns, t);
      }
    } else {
      var t, u :| t in s.local && u in s.local && t.key == u.key && t != u;
      var i :| 0 <= i < |rows| && rows[i] == u;
      OnlyRowRound(s, rows, i);
      OnlyRowHonest(|rows|, i);
      assert !Holds(Round(s, rows, OnlyRow(|rows|, i)), t);
    }
  }

  // ---------- Saves and upload workers, interleaved ----------

  /** A worker between two SQL statements: not in a round, about to send the first of the rest, or about to delete the row
      it has sent. */
  datatype Worker = Idle | Sending(rest: seq<Trans>) | Deleting(sent: Trans, rest: seq<Trans>)

  /** The tables, the workers, and the transactions whose save was reported to have worked. */
  datatype System = System(store: Store, workers: map<int, Worker>, saved: set<Trans>)

  datatype Action =
    | Save(t: Trans, links: Links)
    | Select(worker: int, rows: seq<Trans>)
    | SendNext(worker: int, reply: Reply)
    | DeleteSent(worker: int, reply: Reply)
    | GiveUp(worker: int)

  function WorkerOf(s: System, w: int): Worker {
    if w in s.workers then s.workers[w] else Idle
  }

  predicate Enabled(s: System, a: Action) {
    match a
    case Save(_, links) => Honest(links.central) && Honest(links.local)
    case Select(w, rows) => WorkerOf(s, w).Idle? && multiset(rows) == multiset(s.store.local)
    case SendNext(w, reply) => WorkerOf(s, w).Sending? && WorkerOf(s, w).rest != [] && Honest(reply)
    case DeleteSent(w, reply) => WorkerOf(s, w).Deleting? && Honest(reply)
    case GiveUp(w) => true
  }

  function Apply(s: System, a: Action): System
    requires Enabled(s, a)
  {
    match a
    case Save(t, links) =>
      var (store, result) := Insert(s.store, t, links);
      s.(store := store, saved := if Saved(result) then s.saved + {t} else s.saved)
    case Select(w, rows) => s.(workers := s.workers[w := Sending(rows)])
    case SendNext(w, reply) =>
      var rest := WorkerOf(s, w).rest;
      s.(store := Send(s.store, rest[0], reply),
         workers := s.workers[w := if reply.ok then Deleting(rest[0], rest[1..]) else Sending(rest[1..])])
    case DeleteSent(w, reply) =>
      var worker := WorkerOf(s, w);
      s.(store := Delete(s.store, worker.sent.key, reply), workers := s.workers[w := Sending(worker.rest)])
    case GiveUp(w) => s.(workers := s.workers[w := Idle])
  }

  // Every action of the run is possible where it comes.
  predicate IsRun(s: System, actions: seq<Action>)
    decreases |actions|
  {
    actions == [] || (Enabled(s, actions[0]) && IsRun(Apply(s, actions[0]), actions[1..]))
  }

  function Final(s: System, actions: seq<Action>): System
    requires IsRun(s, actions)
    decreases |actions|
  {
    if actions == [] then s else Final(Apply(s, actions[0]), actions[1..])
  }

  const EMPTY := System(Store([], []), map[], {})

  // ---------- A worker alone ----------

  // The rest of a worker's round, statement by statement; at its end, or at a row that cannot be read, it stops.
  function StepsOf(w: int, turns: seq<Turn>): seq<Action> {
    if turns == [] || turns[0].Unreadable? then [GiveUp(w)]
    else if !turns[0].insert.ok then [SendNext(w, turns[0].insert)] + StepsOf(w, turns[1..])
    else [SendNext(w, turns[0].insert), DeleteSent(w, turns[0].delete)] + StepsOf(w, turns[1..])
  }

  lemma StepFirst(s: System, a: Action, rest: seq<Action>)
    requires Enabled(s, a) && IsRun(Apply(s, a), rest)
    ensures IsRun(s, [a] + rest) && Final(s, [a] + rest) == Final(Apply(s, a), rest)
  {
    assert ([a] + rest)[1..] == rest;
    hide Enabled, Apply;
  }

  // The worker has sent its first row and, if that was reported to have worked, deleted it.
  lemma RowAlone(s: System, w: int, rows: seq<Trans>, turn: Turn, steps: seq<Action>) returns (next: System)
    requires rows != [] && turn.Turn? && Honest(turn.insert) && Honest(turn.delete) && WorkerOf(s, w) == Sending(rows)
    ensures next == System(Forward(s.store, rows[0], turn), s.workers[w := Sending(rows[1..])], s.saved)
    ensures IsRun(next, steps) ==>
              var all := (if turn.insert.ok then [SendNext(w, turn.insert), DeleteSent(w, turn.delete)]
                          else [SendNext(w, turn.insert)]) + steps;
              IsRun(s, all) && Final(s, all) == Final(next, steps)
  {
    var send, delete := SendNext(w, turn.insert), DeleteSent(w, turn.delete);
    var sent := Apply(s, send);
    next := if turn.insert.ok then Apply(sent, delete) else sent;
    assert turn.insert.ok ==> s.workers[w := Deleting(rows[0], rows[1..])][w := Sending(rows[1..])]
                              == s.workers[w := Sending(rows[1..])];
    if IsRun(next, steps) {
      if turn.insert.ok {
        StepFirst(sent, delete, steps);
        StepFirst(s, send, [delete] + steps);
        assert [send] + ([delete] + steps) == [send, delete] + steps;
      } else {
        StepFirst(s, send, steps);
      }
    }
  }

  lemma {:induction false} RestAlone(s: System, w: int, rows: seq<Trans>, turns: seq<Turn>)
    requires |turns| == |rows| && HonestTurns(turns) && WorkerOf(s, w) == Sending(rows)
    ensures IsRun(s, StepsOf(w, turns))
    ensures Final(s, StepsOf(w, turns)) == System(Round(s.store, rows, turns), s.workers[w := Idle], s.saved)
    decreases |rows|
  {
    if turns == [] || turns[0].Unreadable? {
      assert [GiveUp(w)] + [] == [GiveUp(w)];
      StepFirst(s, GiveUp(w), []);
    } else {
      var next := RowAlone(s, w, rows, turns[0], StepsOf(w, turns[1..]));
      hide Forward, Enabled, Apply;
      RestAlone(next, w, rows[1..], turns[1..]);
      assert next.workers[w := Idle] == s.workers[w := Idle];
    }
  }

  /** The statements of a worker that is not interrupted leave the tables of a round, and the worker idle. */
  lemma WorkerDoesRound(s: System, w: int, rows: seq<Trans>, turns: seq<Turn>)
    requires WorkerOf(s, w).Idle? && multiset(rows) == multiset(s.store.local)
    requires |turns| == |rows| && HonestTurns(turns)
    ensures var steps := [Select(w, rows)] + StepsOf(w, turns);
            IsRun(s, steps) && Final(s, steps) == System(Round(s.store, rows, turns), s.workers[w := Idle], s.saved)
  {
    var selected := Apply(s, Select(w, rows));
    RestAlone(selected, w, rows, turns);
    StepFirst(s, Select(w, rows), StepsOf(w, turns));
    assert selected.workers[w := Idle] == s.workers[w := Idle];
  }

  // What a worker is about to delete is in the central table, and no saved key is lost.
  predicate KeysKept(s: System) {
    && (forall t :: t in s.saved ==> HoldsKey(s.store, t.key))
    && (forall w :: w in s.workers && s.workers[w].Deleting? ==> s.workers[w].sent in s.store.central)
  }

  lemma HoldsMore(s: Store, next: Store, key: Key)
    requires HoldsKey(s, key)
    requires forall t :: t in s.central ==> t in next.central
    requires forall t :: t in s.local ==> t in next.local || HasKey(next.central, t.key)
    ensures HoldsKey(next, key)
  {
    if HasKey(s.central, key) {
      var t :| t in s.central && t.key == key;
      assert t in next.central;
    } else {
      var t :| t in s.local && t.key == key;
      assert t in next.local || HasKey(next.central, t.key);
    }
  }

  lemma SavedIsHeld(s: Store, t: Trans, links: Links)
    requires Honest(links.central) && Honest(links.local)
    ensures var (next, result) := Insert(s, t, links);
            && (Saved(result) ==> Holds(next, t))
            && (forall u :: u in s.central ==> u in next.central) && (forall u :: u in s.local ==> u in next.local)
  {
  }

  lemma ApplyKeepsKeys(s: System, a: Action)
    requires KeysKept(s) && Enabled(s, a)
    ensures KeysKept(Apply(s, a))
  {
    var next := Apply(s, a);
    if a.Save? {
      SavedIsHeld(s.store, a.t, a.links);
      hide Insert;
    }
    forall t | t in s.saved ensures HoldsKey(next.store, t.key) {
      HoldsMore(s.store, next.store, t.key);
    }
  }

  /** No saved exit is lost: over every run of saves and of any number of upload workers, in every interleaving and with
      every pattern of failures, the plate and exit time of each transaction that was reported saved stay in the central
      or the local table, even with duplicate keys. */
  lemma {:induction false} NoSavedKeyLost(s: System, actions: seq<Action>)
    requires KeysKept(s) && IsRun(s, actions)
    ensures forall t :: t in Final(s, actions).saved ==> HoldsKey(Final(s, actions).store, t.key)
    decreases |actions|
  {
    hide Apply, HoldsKey;
    if actions != [] {
      ApplyKeepsKeys(s, actions[0]);
      NoSavedKeyLost(Apply(s, actions[0]), actions[1..]);
    }
  }

  // ---------- Whole rows ----------

  // Transactions to save are told apart by their keys, from each other and from those known.
  predicate KnownKeys(known: set<Trans>) {
    forall t, u :: t in known && u in known && t.key == u.key ==> t == u
  }

  function SavesOf(actions: seq<Action>): set<Trans> {
    if actions == [] then {}
    else SavesOf(actions[1..]) + if actions[0].Save? then {actions[0].t} else {}
  }

  predicate AllKnown(known: set<Trans>, rows: seq<Trans>) {
    forall t :: t in rows ==> t in known
  }

  // Everything the system handles is known, and no saved transaction is lost.
  predicate RowsKept(known: set<Trans>, s: System) {
    && (forall t :: t in s.saved ==> Holds(s.store, t))
    && s.saved <= known && AllKnown(known, s.store.local)
    && (forall w :: w in s.workers && s.workers[w].Sending? ==> AllKnown(known, s.workers[w].rest))
    && (forall w :: w in s.workers && s.workers[w].Deleting? ==>
          AllKnown(known, s.workers[w].rest) && s.workers[w].sent in s.store.central && s.workers[w].sent in known)
  }

  lemma ApplyKeepsRows(known: set<Trans>, s: System, a: Action)
    requires KnownKeys(known) && RowsKept(known, s) && Enabled(s, a) && (a.Save? ==> a.t in known)
    ensures RowsKept(known, Apply(s, a))
  {
    if a.Save? {
      SavedIsHeld(s.store, a.t, a.links);
    } else if a.Select? {
      assert forall t :: t in a.rows <==> t in multiset(s.store.local);
    }
  }

  /** Nor is any of its columns, when transactions are told apart by plate and exit time. */
  lemma {:induction false} NoSavedRowLost(known: set<Trans>, s: System, actions: seq<Action>)
    requires KnownKeys(known) && RowsKept(known, s) && IsRun(s, actions) && SavesOf(actions) <= known
    ensures forall t :: t in Final(s, actions).saved ==> Holds(Final(s, actions).store, t)
    decreases |actions|
  {
    hide Apply, Holds;
    if actions != [] {
      ApplyKeepsRows(known, s, actions[0]);
      NoSavedRowLost(known, Apply(s, actions[0]), actions[1..]);
    }
  }

  /** From empty tables both hold of every run. */
  lemma FromEmpty(actions: seq<Action>)
    requires IsRun(EMPTY, actions)
    ensures var s := Final(EMPTY, actions);
            && (forall t :: t in s.saved ==> HoldsKey(s.store, t.key))
            && (KnownKeys(SavesOf(actions)) ==> forall t :: t in s.saved ==> Holds(s.store, t))
  {
    NoSavedKeyLost(EMPTY, actions);
    if KnownKeys(SavesOf(actions)) { NoSavedRowLost(SavesOf(actions), EMPTY, actions); }
  }

  ghost predicate NeverLosesRows(known: set<Trans>) {
    forall actions :: IsRun(EMPTY, actions) && SavesOf(actions) <= known ==>
      forall t :: t in Final(EMPTY, actions).saved ==> Holds(Final(EMPTY, actions).store, t)
  }

  const AWAY := Links(true, false, FAILS, true, false, WORKS)

  lemma {:induction false} OneMore(s: System, run: seq<Action>, a: Action)
    requires IsRun(s, run) && Enabled(Final(s, run), a)
    ensures IsRun(s, run + [a]) && Final(s, run + [a]) == Apply(Final(s, run), a)
    ensures SavesOf(run + [a]) == SavesOf(run) + if a.Save? then {a.t} else {}
    decreases |run|
  {
    hide Enabled, Apply;
    if run == [] {
      assert run + [a] == [a] && [a][1..] == [];
      assert IsRun(Apply(s, a), []) && SavesOf([a]) == SavesOf([]) + if a.Save? then {a.t} else {};
    } else {
      assert (run + [a])[1..] == run[1..] + [a];
      OneMore(Apply(s, run[0]), run[1..], a);
    }
  }

  // Two transactions are saved while the central database is away.
  function SaveBoth(t: Trans, u: Trans): seq<Action> {
    [] + [Save(t, AWAY)] + [Save(u, AWAY)]
  }

  lemma BothSaved(t: Trans, u: Trans)
    ensures IsRun(EMPTY, SaveBoth(t, u)) && SavesOf(SaveBoth(t, u)) == {t, u}
    ensures Final(EMPTY, SaveBoth(t, u)) == System(Store([], [t, u]), map[], {t, u})
  {
    OneMore(EMPTY, [], Save(t, AWAY));
    OneMore(EMPTY, [] + [Save(t, AWAY)], Save(u, AWAY));
  }

  // The second is sent, and its delete takes both.
  lemma LosingRun(t: Trans, u: Trans) returns (run: seq<Action>)
    requires t != u && t.key == u.key
    ensures IsRun(EMPTY, run) && SavesOf(run) == {t, u}
    ensures t in Final(EMPTY, run).saved && !Holds(Final(EMPTY, run).store, t)
  {
    BothSaved(t, u);
    run := SaveBoth(t, u);
    hide SaveBoth;
    var select, miss, send, delete :=
      Select(0, [t, u]), SendNext(0, FAILS), SendNext(0, WORKS), DeleteSent(0, WORKS);
    var both := {t, u};
    OneMore(EMPTY, run, select);
    run := run + [select];
    var workers := Final(EMPTY, run).workers;
    assert workers == map[0 := Sending([t, u])];
    assert Final(EMPTY, run) == System(Store([], [t, u]), workers, both);
    OneMore(EMPTY, run, miss);
    run := run + [miss];
    workers := workers[0 := Sending([u])];
    assert [t, u][1..] == [u];
    assert Final(EMPTY, run) == System(Store([], [t, u]), workers, both);
    OneMore(EMPTY, run, send);
    run := run + [send];
    workers := workers[0 := Deleting(u, [])];
    assert [u][1..] == [] && [] + [u] == [u];
    assert Final(EMPTY, run) == System(Store([u], [t, u]), workers, both);
    OneMore(EMPTY, run, delete);
    run := run + [delete];
    assert Final(EMPTY, run).store == Store([u], Without([t, u], u.key));
  }

  /** No run over some transactions loses one of them exactly when no two of them share a plate and exit time. */
  lemma RowsKeptExactly(known: set<Trans>)
    ensures NeverLosesRows(known) <==> KnownKeys(known)
  {
    if KnownKeys(known) {
      forall actions | IsRun(EMPTY, actions) && SavesOf(actions) <= known
        ensures forall t :: t in Final(EMPTY, actions).saved ==> Holds(Final(EMPTY, actions).store, t)
      {
        NoSavedRowLost(known, EMPTY, actions);
      }
    } else {
      var t, u :| t in known && u in known && t.key == u.key && t != u;
      var run := LosingRun(t, u);
      assert !NeverLosesRows(known);
    }
  }
}
