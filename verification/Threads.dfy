/** The list of connection threads and their reaping (server/aesdsocket.c). */
module Threads {
  /** One list entry with the thread record it points to. */
  class Node {
    const id: nat
    var complete: bool
    var next: Node?

    constructor (id: nat, next: Node?)
      ensures this.id == id && !complete && this.next == next
    {
      this.id, complete, this.next := id, false, next;
    }
  }

  /** The thread numbers of entries, in order. */
  function Ids(nodes: seq<Node>): seq<nat> {
    seq(|nodes|, i requires 0 <= i < |nodes| => nodes[i].id)
  }

  /** The completion flags of entries, in order. */
  function Flags(nodes: seq<Node>): seq<bool>
    reads nodes
  {
    seq(|nodes|, i requires 0 <= i < |nodes| reads nodes => nodes[i].complete)
  }

  /** The entries whose flag is as asked, in order. */
  function WithFlag(nodes: seq<Node>, flags: seq<bool>, flag: bool): seq<Node>
    requires |nodes| == |flags|
  {
    if nodes == [] then []
    else
      var n := |nodes| - 1;
      WithFlag(nodes[..n], flags[..n], flag) + (if flags[n] == flag then [nodes[n]] else [])
  }

  lemma WithFlagNext(nodes: seq<Node>, flags: seq<bool>, flag: bool, i: nat)
    requires |nodes| == |flags| && i < |nodes|
    ensures WithFlag(nodes[..i + 1], flags[..i + 1], flag) ==
            WithFlag(nodes[..i], flags[..i], flag) + (if flags[i] == flag then [nodes[i]] else [])
    ensures Ids(WithFlag(nodes[..i + 1], flags[..i + 1], flag)) ==
            Ids(WithFlag(nodes[..i], flags[..i], flag)) + (if flags[i] == flag then [nodes[i].id] else [])
  {
    assert nodes[..i + 1][..i] == nodes[..i] && flags[..i + 1][..i] == flags[..i];
  }

  function At(ns: seq<Node>, i: nat): Node? {
    if i < |ns| then ns[i] else null
  }

  /** The entries are chained in this order, each once, and are among `cells`. */
  ghost predicate Chained(ns: seq<Node>, cells: set<Node>)
    reads cells`next
  {
    && (forall i :: 0 <= i < |ns| ==> ns[i] in cells)
    && (forall i :: 0 <= i < |ns| ==> ns[i].next == At(ns, i + 1))
    && (forall i, j :: 0 <= i < j < |ns| ==> ns[i] != ns[j])
  }

  lemma InChain(ns: seq<Node>, cells: set<Node>, i: nat)
    requires Chained(ns, cells) && i < |ns|
    ensures ns[i] in cells && ns[i].next == At(ns, i + 1)
  {
  }

  /** Taking the entry out of the middle, or keeping it there. */
  lemma AroundEntry(kept: seq<Node>, all: seq<Node>, i: nat)
    requires i < |all|
    ensures var ns := kept + all[i..];
            |kept| < |ns| && ns[|kept|] == all[i]
            && At(ns, |kept| + 1) == At(all, i + 1)
            && ns[..|kept|] + ns[|kept| + 1..] == kept + all[i + 1..]
            && kept + [all[i]] + all[i + 1..] == ns
  {
  }

  /** Who follows whom once entry `at` is taken out. */
  lemma AfterUnlinking(ns: seq<Node>, at: nat, i: nat)
    requires at < |ns| && i < |ns| - 1
    ensures var rest := ns[..at] + ns[at + 1..];
            rest[i] == (if i < at then ns[i] else ns[i + 1])
            && At(rest, i + 1) == At(ns, if i + 1 < at then i + 1 else i + 2)
  {
  }

  /** SLIST of threads; `joined` is the log of pthread_join calls, `cells` the entries ever allocated for the list. */
  class ThreadList {
    var first: Node?
    var joined: seq<nat>
    ghost var nodes: seq<Node>
    ghost var cells: set<Node>

    ghost predicate Valid()
      reads this, cells`next
    {
      first == At(nodes, 0) && Chained(nodes, cells)
    }

    constructor ()
      ensures Valid() && nodes == [] && cells == {} && joined == []
    {
      first, joined, nodes, cells := null, [], [], {};
    }

    /** add_thread_to_list: a new entry at the head. */
    method Add(id: nat) returns (n: Node)
      requires Valid()
      modifies this`first, this`nodes, this`cells
      ensures Valid() && fresh(n) && n.id == id && !n.complete
      ensures nodes == [n] + old(nodes) && cells == old(cells) + {n}
    {
      n := new Node(id, first);
      first, nodes, cells := n, [n] + nodes, cells + {n};
    }

    /** check_for_completed_threads: joins every completed thread and clears its flag; the entries stay. */
    method CheckForCompleted()
      requires Valid()
      modifies this`joined, cells`complete
      ensures Valid()
      ensures joined == old(joined) + Ids(WithFlag(nodes, old(Flags(nodes)), true))
      ensures forall i :: 0 <= i < |nodes| ==> !nodes[i].complete
    {
      hide WithFlag, Ids;
      var current := first;
      ghost var i, flags, before := 0, Flags(nodes), joined;
      WithNone(nodes[..0], flags[..0], true);
      assert joined == before + Ids(WithFlag(nodes[..0], flags[..0], true));
      while current != null
        invariant i <= |nodes| && current == At(nodes, i)
        invariant joined == before + Ids(WithFlag(nodes[..i], flags[..i], true))
        invariant forall k :: 0 <= k < |nodes| ==> nodes[k].complete == (i <= k && flags[k])
        decreases |nodes| - i
      {
        WithFlagNext(nodes, flags, true, i);
        if current.complete {
          joined := joined + [current.id];
          current.complete := false;
        }
        current, i := current.next, i + 1;
      }
      assert nodes[..i] == nodes && flags[..i] == flags;
    }

    /** The walk from the head to the entry before a given one. */
    method EntryBefore(n: Node, ghost at: nat) returns (before: Node)
      requires Valid() && 0 < at < |nodes| && nodes[at] == n
      ensures before == nodes[at - 1]
    {
      before := first;
      ghost var k := 0;
      while before.next != n
        invariant k < at && before == nodes[k]
        decreases at - k
      {
        InChain(nodes, cells, k);
        before, k := before.next, k + 1;
      }
      InChain(nodes, cells, k);
      assert nodes[k + 1] == n;
    }

    /** SLIST_REMOVE: unlinks an entry, walking from the head to the one before it. */
    method Remove(n: Node, ghost at: nat)
      requires Valid() && at < |nodes| && nodes[at] == n
      modifies this`first, this`nodes, cells`next
      ensures Valid() && nodes == old(nodes)[..at] + old(nodes)[at + 1..]
    {
      ghost var rest := nodes[..at] + nodes[at + 1..];
      if first == n {
        first := n.next;
      } else {
        var before := EntryBefore(n, at);
        before.next := n.next;
      }
      forall i | 0 <= i < |rest|
        ensures rest[i] in cells && rest[i].next == At(rest, i + 1)
      {
        AfterUnlinking(nodes, at, i);
      }
      nodes := rest;
    }

    /** One visit of the reaping loop: the successor is read first, then a completed thread is joined and removed. */
    method Reap(current: Node, ghost at: nat) returns (next: Node?)
      requires Valid() && at < |nodes| && nodes[at] == current
      modifies this`first, this`joined, this`nodes, cells`next
      ensures Valid() && next == At(old(nodes), at + 1)
      ensures nodes == if current.complete then old(nodes)[..at] + old(nodes)[at + 1..] else old(nodes)
      ensures joined == old(joined) + if current.complete then [current.id] else []
    {
      hide Chained;
      InChain(nodes, cells, at);
      next := current.next;
      if current.complete {
        joined := joined + [current.id];
        Remove(current, at);
      }
    }

    /** The reaping loop of process_kill: every completed thread is joined and its entry removed while the list is being
        walked; the entries of the others stay, in their order. */
    method ProcessKill()
      requires Valid()
      modifies this`first, this`joined, this`nodes, cells`next
      ensures Valid() && nodes == WithFlag(old(nodes), old(Flags(nodes)), false)
      ensures joined == old(joined) + Ids(WithFlag(old(nodes), old(Flags(nodes)), true))
    {
      hide WithFlag, Chained, Ids;
      var current := first;
      ghost var i, all, flags, before := 0, nodes, Flags(nodes), joined;
      ghost var kept, gone := [], [];
      WithNone(all[..0], flags[..0], true);
      WithNone(all[..0], flags[..0], false);
      while current != null
        invariant Valid() && i <= |all| && current == At(all, i)
        invariant nodes == kept + all[i..]
        invariant kept == WithFlag(all[..i], flags[..i], false)
        invariant gone == Ids(WithFlag(all[..i], flags[..i], true))
        invariant joined == before + gone
        decreases |all| - i
      {
        WithFlagNext(all, flags, false, i);
        WithFlagNext(all, flags, true, i);
        AroundEntry(kept, all, i);
        assert current.complete == old(all[i].complete) == flags[i];
        current := Reap(current, |kept|);
        if flags[i] {
          gone := gone + [all[i].id];
        } else {
          kept := kept + [all[i]];
        }
        i := i + 1;
      }
      assert all[..i] == all && flags[..i] == flags && all[i..] == [];
    }
  }

  lemma WithNone(nodes: seq<Node>, flags: seq<bool>, flag: bool)
    requires |nodes| == |flags| == 0
    ensures WithFlag(nodes, flags, flag) == [] && Ids([]) == []
  {
  }

  // ---- the main thread and the connection threads, interleaved ----

  /** What the main thread is doing with the list: nothing, a check, or the final kill, with the entries still to visit.
      `start` is the list and `before` the number of joins when the kill began. */
  datatype Control = Idle | Checking(rest: seq<nat>) | Killing(rest: seq<nat>, start: seq<nat>, before: nat)

  /** `flagged` are the threads whose completion flag is set, `finished` all that ever set it. */
  datatype Pool = Pool(order: seq<nat>, flagged: set<nat>, running: set<nat>, finished: set<nat>, joined: seq<nat>, control: Control)

  datatype Move = Create(id: nat) | Finish(id: nat) | BeginCheck | BeginKill | Visit | EndCheck

  const NO_THREADS := Pool([], {}, {}, {}, [], Idle)

  function Without(s: seq<nat>, gone: seq<nat>): seq<nat> {
    if s == [] then [] else (if s[0] in gone then [] else [s[0]]) + Without(s[1..], gone)
  }

  function MoveStep(p: Pool, m: Move): Pool {
    match (m, p.control)
    case (Create(id), Idle) =>
      if id in p.order || id in p.finished || id in p.running then p
      else p.(order := [id] + p.order, running := p.running + {id})
    case (Finish(id), _) =>
      if id !in p.running then p
      else p.(flagged := p.flagged + {id}, running := p.running - {id}, finished := p.finished + {id})
    case (BeginCheck, Idle) => p.(control := Checking(p.order))
    case (BeginKill, Idle) => p.(control := Killing(p.order, p.order, |p.joined|))
    case (EndCheck, Checking(rest)) => if rest == [] then p.(control := Idle) else p
    case (Visit, Checking(rest)) =>
      if rest == [] then p
      else if rest[0] !in p.flagged then p.(control := Checking(rest[1..]))
      else p.(joined := p.joined + [rest[0]], flagged := p.flagged - {rest[0]}, control := Checking(rest[1..]))
    case (Visit, Killing(rest, start, before)) =>
      if rest == [] then p
      else if rest[0] !in p.flagged then p.(control := Killing(rest[1..], start, before))
      else p.(joined := p.joined + [rest[0]], order := Without(p.order, [rest[0]]), control := Killing(rest[1..], start, before))
    case _ => p
  }

  function MoveRun(p: Pool, moves: seq<Move>): Pool
    decreases |moves|
  {
    if moves == [] then p else MoveRun(MoveStep(p, moves[0]), moves[1..])
  }

  ghost predicate NoDuplicates(s: seq<nat>) {
    forall i, j :: 0 <= i < j < |s| ==> s[i] != s[j]
  }

  /** The threads the kill has joined so far. */
  function Gone(p: Pool): seq<nat> {
    if p.control.Killing? && p.control.before <= |p.joined| then p.joined[p.control.before..] else []
  }

  /** The joins of a kill so far are exactly what it took out of the list it began with; the entries it still has to
      visit are in the list. */
  ghost predicate Reaping(order: seq<nat>, start: seq<nat>, gone: seq<nat>, rest: seq<nat>) {
    && order == Without(start, gone)
    && NoDuplicates(rest)
    && forall x :: x in rest ==> x in order && x !in gone
  }

  ghost predicate KillOk(p: Pool) {
    p.control.Killing? ==> p.control.before <= |p.joined| && Reaping(p.order, p.control.start, Gone(p), p.control.rest)
  }

  /** A thread that finished has its flag set or was joined; a set flag means finished, and not joined unless the kill
      already took the entry. */
  ghost predicate PoolOk(p: Pool) {
    && NoDuplicates(p.order) && NoDuplicates(p.joined)
    && p.running !! p.finished && p.flagged <= p.finished
    && (forall x :: x in p.finished ==> x in p.flagged || x in p.joined)
    && (forall x :: x in p.joined ==> x in p.finished)
    && (forall x :: x in p.joined && x in p.flagged ==> x !in p.order)
    && (forall x :: x in p.order ==> x in p.running || x in p.finished)
    && (forall x :: x in p.running ==> x in p.order)
    && (p.control.Checking? ==> forall x :: x in p.control.rest ==> x in p.order)
    && KillOk(p)
  }

  lemma {:induction false} WithoutMember(s: seq<nat>, gone: seq<nat>)
    ensures forall x :: x in Without(s, gone) <==> x in s && x !in gone
    ensures NoDuplicates(s) ==> NoDuplicates(Without(s, gone))
  {
    if s != [] {
      WithoutMember(s[1..], gone);
      assert s == [s[0]] + s[1..];
      if NoDuplicates(s) {
        FirstNotInRest(s);
      }
    }
  }

  lemma {:induction false} WithoutMore(s: seq<nat>, gone: seq<nat>, more: seq<nat>)
    ensures Without(Without(s, gone), more) == Without(s, gone + more)
  {
    if s != [] {
      WithoutMore(s[1..], gone, more);
      var rest := Without(s[1..], gone);
      if s[0] !in gone {
        assert ([s[0]] + rest)[1..] == rest;
      } else {
        assert [] + rest == rest;
      }
    }
  }

  lemma {:induction false} WithoutNone(s: seq<nat>)
    ensures Without(s, []) == s
  {
    if s != [] {
      WithoutNone(s[1..]);
    }
  }

  lemma FirstNotInRest(s: seq<nat>)
    requires s != [] && NoDuplicates(s)
    ensures s[0] !in s[1..] && NoDuplicates(s[1..])
  {
  }

  lemma OneMore(s: seq<nat>, x: nat)
    requires NoDuplicates(s) && x !in s
    ensures NoDuplicates(s + [x])
  {
  }

  /** Visiting an entry of the kill: passing it, and taking it out. */
  lemma ReapingVisit(order: seq<nat>, start: seq<nat>, gone: seq<nat>, rest: seq<nat>)
    requires Reaping(order, start, gone, rest) && rest != []
    ensures Reaping(order, start, gone, rest[1..])
    ensures Reaping(Without(order, [rest[0]]), start, gone + [rest[0]], rest[1..])
  {
    WithoutMember(order, [rest[0]]);
    WithoutMore(start, gone, [rest[0]]);
    FirstNotInRest(rest);
    hide Without, NoDuplicates;
    assert forall x :: x in rest[1..] ==> x in rest;
  }

  lemma KillVisit(p: Pool)
    requires PoolOk(p) && p.control.Killing? && p.control.rest != [] && p.control.rest[0] in p.flagged
    ensures PoolOk(MoveStep(p, Visit)) && Gone(MoveStep(p, Visit)) == Gone(p) + [p.control.rest[0]]
  {
    hide Without, NoDuplicates, Reaping;
    var x := p.control.rest[0];
    ReapingVisit(p.order, p.control.start, Gone(p), p.control.rest);
    assert (p.joined + [x])[p.control.before..] == p.joined[p.control.before..] + [x];
    assert x in p.order by {
      RestInOrder(p.order, p.control.start, Gone(p), p.control.rest);
    }
    WithoutMember(p.order, [x]);
    OneMore(p.joined, x);
    assert forall y :: y in p.joined + [x] ==> y in p.joined || y == x;
  }

  lemma RestInOrder(order: seq<nat>, start: seq<nat>, gone: seq<nat>, rest: seq<nat>)
    requires Reaping(order, start, gone, rest)
    ensures forall x :: x in rest ==> x in order
  {
  }

  lemma KillBegins(p: Pool)
    requires PoolOk(p) && p.control == Idle
    ensures PoolOk(MoveStep(p, BeginKill)) && Gone(MoveStep(p, BeginKill)) == []
  {
    WithoutNone(p.order);
    assert p.joined[|p.joined|..] == [];
  }

  lemma MoveKeeps(p: Pool, m: Move)
    requires PoolOk(p)
    ensures PoolOk(MoveStep(p, m))
  {
    match (m, p.control)
    case (BeginKill, Idle) =>
      KillBegins(p);
    case (Visit, Killing(rest, start, before)) =>
      if rest != [] {
        if rest[0] in p.flagged {
          KillVisit(p);
        } else {
          ReapingVisit(p.order, start, Gone(p), rest);
        }
      }
    case _ =>
  }

  lemma {:induction false} MovesKeep(p: Pool, moves: seq<Move>)
    requires PoolOk(p)
    ensures PoolOk(MoveRun(p, moves))
    decreases |moves|
  {
    if moves != [] {
      MoveKeeps(p, moves[0]);
      MovesKeep(MoveStep(p, moves[0]), moves[1..]);
    }
  }

  /** Over any interleaving of creations, completions, checks and the final kill, no thread is joined twice, and none is
      joined before it set its completion flag. */
  lemma JoinedOnceAfterCompletion(moves: seq<Move>)
    ensures var p := MoveRun(NO_THREADS, moves);
            NoDuplicates(p.joined) && forall x :: x in p.joined ==> x in p.finished && x !in p.running
  {
    MovesKeep(NO_THREADS, moves);
  }

  /** Over any interleaving, a thread that finished has its flag set or was joined: no completion is lost. */
  lemma FinishedIsNoticed(moves: seq<Move>)
    ensures var p := MoveRun(NO_THREADS, moves);
            forall x :: x in p.finished ==> x in p.flagged || x in p.joined
  {
    MovesKeep(NO_THREADS, moves);
  }

  /** A created thread is running or finished, and listed until it is joined. */
  ghost predicate Accounted(p: Pool, x: nat) {
    (x in p.running || x in p.finished) && (x in p.order || x in p.joined)
  }

  lemma AccountedStep(p: Pool, m: Move, x: nat)
    requires Accounted(p, x)
    ensures Accounted(MoveStep(p, m), x)
    ensures x in p.running && m == Finish(x) ==> var q := MoveStep(p, m); x in q.flagged && x in q.finished && x !in q.running
    ensures x in p.running && m != Finish(x) ==> x in MoveStep(p, m).running
    ensures x !in p.running ==> x !in MoveStep(p, m).running
  {
    if m == Visit && p.control.Killing? && p.control.rest != [] {
      WithoutMember(p.order, [p.control.rest[0]]);
    }
  }

  lemma {:induction false} AccountedRun(p: Pool, moves: seq<Move>, x: nat)
    requires Accounted(p, x)
    ensures Accounted(MoveRun(p, moves), x)
    ensures x in p.running ==> (x in MoveRun(p, moves).running <==> Finish(x) !in moves)
    ensures x !in p.running ==> x !in MoveRun(p, moves).running
    decreases |moves|
  {
    if moves != [] {
      hide MoveStep, Accounted;
      AccountedStep(p, moves[0], x);
      AccountedRun(MoveStep(p, moves[0]), moves[1..], x);
      assert moves == [moves[0]] + moves[1..];
    }
  }

  /** From any reachable idle pool, a new thread becomes the head of the list, before the others in their order. Whatever
      happens then, it is listed until it is joined, and it runs exactly until it finishes. */
  lemma LifeOfThread(before: seq<Move>, id: nat, moves: seq<Move>)
    requires var p := MoveRun(NO_THREADS, before);
             p.control == Idle && id !in p.order && id !in p.finished && id !in p.running
    ensures var p := MoveRun(NO_THREADS, before);
            var p1 := MoveStep(p, Create(id));
            var q := MoveRun(p1, moves);
            p1.order == [id] + p.order
            && (id in q.order || id in q.joined)
            && (id in q.running <==> Finish(id) !in moves)
            && (id in q.finished <==> Finish(id) in moves)
            && (id in q.joined ==> id in q.finished)
  {
    MovesKeep(NO_THREADS, before);
    var p1 := MoveStep(MoveRun(NO_THREADS, before), Create(id));
    MoveKeeps(MoveRun(NO_THREADS, before), Create(id));
    MovesKeep(p1, moves);
    AccountedRun(p1, moves, id);
    JoinedMeansFinished(MoveRun(p1, moves));
    hide PoolOk, MoveRun;
  }

  lemma JoinedMeansFinished(p: Pool)
    requires PoolOk(p)
    ensures p.running !! p.finished && forall x :: x in p.joined ==> x in p.finished
  {
  }

  // ---- the kill, while threads go on completing ----

  /** A kill goes on being that kill, and no thread starts to run. */
  lemma KillGoesOn(p: Pool, m: Move)
    requires p.control.Killing?
    ensures var q := MoveStep(p, m);
            q.control.Killing? && q.control.start == p.control.start && q.running <= p.running && p.flagged <= q.flagged
  {
  }

  /** An entry due to be reaped: its flag is set and the kill will come to it, or it has been taken. */
  ghost predicate Due(p: Pool, x: nat) {
    p.control.Killing? && ((x in p.control.rest && x in p.flagged) || x in Gone(p))
  }

  lemma DueStep(p: Pool, m: Move, x: nat)
    requires PoolOk(p) && Due(p, x)
    ensures Due(MoveStep(p, m), x)
  {
    KillGoesOn(p, m);
    hide PoolOk, Without;
    if m == Visit && p.control.rest != [] {
      assert p.control.rest == [p.control.rest[0]] + p.control.rest[1..];
      if p.control.rest[0] in p.flagged {
        KillVisit(p);
      }
    }
  }

  lemma {:induction false} DueRun(p: Pool, moves: seq<Move>, x: nat)
    requires PoolOk(p) && Due(p, x)
    ensures Due(MoveRun(p, moves), x)
    decreases |moves|
  {
    if moves != [] {
      DueStep(p, moves[0], x);
      MoveKeeps(p, moves[0]);
      DueRun(MoveStep(p, moves[0]), moves[1..], x);
    }
  }

  lemma {:induction false} KillRuns(p: Pool, moves: seq<Move>)
    requires p.control.Killing?
    ensures var q := MoveRun(p, moves);
            q.control.Killing? && q.control.start == p.control.start && q.running <= p.running
    decreases |moves|
  {
    if moves != [] {
      KillGoesOn(p, moves[0]);
      KillRuns(MoveStep(p, moves[0]), moves[1..]);
    }
  }

  /** An entry whose flag is not set, of a thread that is not running or runs to the end, is never taken. */
  lemma {:induction false} UnflaggedStays(p: Pool, moves: seq<Move>, x: nat)
    requires PoolOk(p) && p.control.Killing? && x in p.order && x !in p.flagged
    requires x !in p.running || x in MoveRun(p, moves).running
    ensures x in MoveRun(p, moves).order
    decreases |moves|
  {
    if moves != [] {
      var q := MoveStep(p, moves[0]);
      KillGoesOn(p, moves[0]);
      KillRuns(q, moves[1..]);
      MoveKeeps(p, moves[0]);
      if moves[0] == Visit && p.control.rest != [] {
        WithoutMember(p.order, [p.control.rest[0]]);
      }
      UnflaggedStays(q, moves[1..], x);
    }
  }

  /** From any reachable idle pool: when the kill has visited every entry while threads went on completing, the list is
      the one it began with, in its order, without exactly the threads it joined. These are at least all that had finished
      and not been joined when it began; and it keeps at least all that a check had joined before, and all still running
      at the end. */
  lemma KillReapsFinished(before: seq<Move>, moves: seq<Move>)
    requires MoveRun(NO_THREADS, before).control == Idle
    ensures var p := MoveRun(NO_THREADS, before);
            var q := MoveRun(MoveStep(p, BeginKill), moves);
            q.control.Killing? && q.order == Without(p.order, Gone(q))
            && (q.control.rest == [] ==>
                  (forall x :: x in p.order && x in p.finished && x !in p.joined ==>
                     x in Gone(q) && x in q.joined && x !in q.order)
                  && (forall x :: x in p.order && (x in p.joined || x in q.running) ==> x in q.order && x !in Gone(q)))
  {
    MovesKeep(NO_THREADS, before);
    var p := MoveRun(NO_THREADS, before);
    var p1 := MoveStep(p, BeginKill);
    KillBegins(p);
    var q := MoveRun(p1, moves);
    MovesKeep(p1, moves);
    KillRuns(p1, moves);
    WithoutMember(p.order, Gone(q));
    FlagMeansWaiting(p);
    FlagMeansWaiting(q);
    hide MoveRun, PoolOk, Without;
    forall x | x in p.order && x in p.flagged
      ensures Due(q, x)
    {
      DueRun(p1, moves, x);
    }
    forall x | x in p.order && x !in p.flagged && (x !in p.running || x in q.running)
      ensures x in q.order
    {
      UnflaggedStays(p1, moves, x);
    }
  }

  /** A listed thread has its flag set exactly when it finished and was not joined. */
  lemma FlagMeansWaiting(p: Pool)
    requires PoolOk(p)
    ensures forall x :: x in p.order ==> (x in p.flagged <==> x in p.finished && x !in p.joined)
    ensures p.running !! p.flagged && forall x :: x in p.joined ==> x !in p.running
  {
  }

  // ---- the loops of the list, as visits ----

  function Picked(s: seq<nat>, flagged: set<nat>): seq<nat> {
    if s == [] then [] else (if s[0] in flagged then [s[0]] else []) + Picked(s[1..], flagged)
  }

  function Visits(n: nat): seq<Move> {
    if n == 0 then [] else [Visit] + Visits(n - 1)
  }

  lemma VisitFirst(p: Pool, n: nat)
    ensures MoveRun(p, Visits(n + 1)) == MoveRun(MoveStep(p, Visit), Visits(n))
  {
    hide MoveStep;
    assert Visits(n + 1)[1..] == Visits(n);
  }

  lemma NoVisits(p: Pool)
    ensures MoveRun(p, Visits(0)) == p && Without(p.order, []) == p.order && Picked([], p.flagged) == []
    ensures p.joined + [] == p.joined
  {
    WithoutNone(p.order);
  }

  /** What a visit of the kill takes, and what is then still to be picked. */
  lemma KillVisitPicks(p: Pool)
    requires p.control.Killing? && p.control.rest != []
    ensures var (q, x) := (MoveStep(p, Visit), p.control.rest[0]);
            var taken := if x in p.flagged then [x] else [];
            q.control.Killing? && q.control.rest == p.control.rest[1..] && q.flagged == p.flagged
            && q.order == Without(p.order, taken) && q.joined == p.joined + taken
            && Picked(p.control.rest, p.flagged) == taken + Picked(p.control.rest[1..], p.flagged)
  {
    WithoutNone(p.order);
  }

  lemma {:induction false} KillVisits(p: Pool)
    requires p.control.Killing?
    ensures var q := MoveRun(p, Visits(|p.control.rest|));
            var picked := Picked(p.control.rest, p.flagged);
            q.order == Without(p.order, picked) && q.joined == p.joined + picked
    decreases |p.control.rest|
  {
    hide *;
    var rest := p.control.rest;
    NoVisits(p);
    if rest != [] {
      KillVisitPicks(p);
      VisitFirst(p, |rest| - 1);
      KillVisits(MoveStep(p, Visit));
      var taken, later := if rest[0] in p.flagged then [rest[0]] else [], Picked(rest[1..], p.flagged);
      WithoutMore(p.order, taken, later);
      assert p.joined + taken + later == p.joined + (taken + later);
    }
  }

  lemma CheckVisitPicks(p: Pool)
    requires p.control.Checking? && p.control.rest != [] && NoDuplicates(p.control.rest)
    ensures var (q, x) := (MoveStep(p, Visit), p.control.rest[0]);
            var taken := if x in p.flagged then [x] else [];
            q.control == Checking(p.control.rest[1..]) && q.flagged == p.flagged - {x}
            && q.order == p.order && q.joined == p.joined + taken
            && Picked(p.control.rest, p.flagged) == taken + Picked(p.control.rest[1..], q.flagged)
            && NoDuplicates(p.control.rest[1..])
  {
    FirstNotInRest(p.control.rest);
    PickedUntouched(p.control.rest[1..], p.flagged, p.control.rest[0]);
    hide NoDuplicates;
    assert p.control.rest[0] !in p.flagged ==> p.flagged - {p.control.rest[0]} == p.flagged;
  }

  lemma LeftFlagged(flagged: set<nat>, rest: seq<nat>)
    requires rest != []
    ensures flagged - {rest[0]} - (set x | x in rest[1..]) == flagged - (set x | x in rest)
  {
    assert rest == [rest[0]] + rest[1..];
  }

  lemma {:induction false} CheckVisits(p: Pool)
    requires p.control.Checking? && NoDuplicates(p.control.rest)
    ensures var q := MoveRun(p, Visits(|p.control.rest|));
            var picked := Picked(p.control.rest, p.flagged);
            q.order == p.order && q.joined == p.joined + picked && q.control == Checking([])
            && q.flagged == p.flagged - (set x | x in p.control.rest)
    decreases |p.control.rest|
  {
    hide *;
    var rest := p.control.rest;
    NoVisits(p);
    if rest != [] {
      CheckVisitPicks(p);
      VisitFirst(p, |rest| - 1);
      var q := MoveStep(p, Visit);
      CheckVisits(q);
      var taken, later := if rest[0] in p.flagged then [rest[0]] else [], Picked(rest[1..], q.flagged);
      assert p.joined + taken + later == p.joined + (taken + later);
      LeftFlagged(p.flagged, rest);
    } else {
      assert p.flagged - (set x | x in rest) == p.flagged;
    }
  }

  lemma {:induction false} PickedUntouched(s: seq<nat>, flagged: set<nat>, x: nat)
    requires x !in s
    ensures Picked(s, flagged - {x}) == Picked(s, flagged)
  {
    if s != [] {
      PickedUntouched(s[1..], flagged, x);
    }
  }

  lemma {:induction false} PickedSnoc(s: seq<nat>, flagged: set<nat>, x: nat)
    ensures Picked(s + [x], flagged) == Picked(s, flagged) + (if x in flagged then [x] else [])
  {
    if s == [] {
      assert Picked([], flagged) == [];
    } else {
      PickedSnoc(s[1..], flagged, x);
      assert (s + [x])[1..] == s[1..] + [x];
    }
  }

  /** The flags of the entries, by thread number. */
  ghost predicate FlagsAre(nodes: seq<Node>, flags: seq<bool>, flagged: set<nat>) {
    |flags| == |nodes| && forall i :: 0 <= i < |nodes| ==> (flags[i] <==> nodes[i].id in flagged)
  }

  lemma {:induction false} PickedAreFlagged(nodes: seq<Node>, flags: seq<bool>, flagged: set<nat>)
    requires FlagsAre(nodes, flags, flagged)
    ensures Ids(WithFlag(nodes, flags, true)) == Picked(Ids(nodes), flagged)
    ensures forall gone :: (forall x :: x in Ids(nodes) ==> (x in gone <==> x in flagged)) ==>
              Ids(WithFlag(nodes, flags, false)) == Without(Ids(nodes), gone)
  {
    if nodes != [] {
      var n := |nodes| - 1;
      var front := nodes[..n];
      PickedAreFlagged(front, flags[..n], flagged);
      assert Ids(nodes) == Ids(front) + [nodes[n].id];
      PickedSnoc(Ids(front), flagged, nodes[n].id);
      forall gone: seq<nat> | forall x :: x in Ids(nodes) ==> (x in gone <==> x in flagged)
        ensures Ids(WithFlag(nodes, flags, false)) == Without(Ids(nodes), gone)
      {
        WithoutSnoc(Ids(front), gone, nodes[n].id);
        assert nodes[n].id in Ids(nodes);
      }
    }
  }

  lemma {:induction false} WithoutSnoc(s: seq<nat>, gone: seq<nat>, x: nat)
    ensures Without(s + [x], gone) == Without(s, gone) + (if x in gone then [] else [x])
  {
    if s == [] {
      assert Without([], gone) == [];
    } else {
      WithoutSnoc(s[1..], gone, x);
      assert (s + [x])[1..] == s[1..] + [x];
    }
  }

  lemma {:induction false} PickedMember(s: seq<nat>, flagged: set<nat>)
    ensures forall x :: x in Picked(s, flagged) <==> x in s && x in flagged
  {
    if s != [] {
      PickedMember(s[1..], flagged);
      assert s == [s[0]] + s[1..];
    }
  }

  /** The two loops on the list do what the visits of the interleaved model do when no thread completes meanwhile: the
      same joins in the same order, the same entries left. */
  lemma LoopsAreVisits(nodes: seq<Node>, flags: seq<bool>, p: Pool)
    requires p.control == Idle && p.order == Ids(nodes) && NoDuplicates(p.order) && FlagsAre(nodes, flags, p.flagged)
    ensures var killed := MoveRun(MoveStep(p, BeginKill), Visits(|nodes|));
            killed.order == Ids(WithFlag(nodes, flags, false))
            && killed.joined == p.joined + Ids(WithFlag(nodes, flags, true))
    ensures var checked := MoveRun(MoveStep(p, BeginCheck), Visits(|nodes|));
            checked.order == p.order && checked.joined == p.joined + Ids(WithFlag(nodes, flags, true))
            && checked.flagged == p.flagged - (set x | x in p.order)
            && MoveStep(checked, EndCheck) == checked.(control := Idle)
  {
    KillVisits(MoveStep(p, BeginKill));
    CheckVisits(MoveStep(p, BeginCheck));
    PickedAreFlagged(nodes, flags, p.flagged);
    PickedMember(p.order, p.flagged);
  }
}
