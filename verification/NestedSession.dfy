/** Nested transactions over one PostgreSQL session: the outermost call is a transaction and
    every call inside it a savepoint. Control statements may fail before or after the server
    ran them, queries may fail and leave the server's transaction aborted, and the connection may
    break at any point. D is the type of the data. */
module NestedSession {
  import opened Outcomes

  datatype Statement = Begin | Savepoint(n: nat) | Release(n: nat) | RollbackTo(n: nat) | Commit | Rollback

  /** What becomes of a statement: it runs, it fails unseen by the server, or the server runs
      it and the answer is lost. */
  datatype Fault = Fine | Before | After

  /** A statement and whether it was answered without an error, or the loss of the connection. */
  datatype Event = Sent(statement: Statement, ok: bool) | Broken

  datatype Snapshot<D> = Snapshot(name: nat, data: D)

  /** `aborted`: a query of the open transaction failed and nothing has undone it yet. */
  datatype Server<D> = Server(committed: D, open: bool, aborted: bool, current: D, savepoints: seq<Snapshot<D>>)

  // ----- the server -----

  /** The latest savepoint with this name. */
  function Named<D>(savepoints: seq<Snapshot<D>>, n: nat): Option<nat> {
    if savepoints == [] then None
    else if savepoints[|savepoints| - 1].name == n then Some(|savepoints| - 1)
    else Named(savepoints[..|savepoints| - 1], n)
  }

  /** An aborted transaction takes nothing but its end and the way back to a savepoint. */
  predicate Accepts<D>(server: Server<D>, statement: Statement) {
    match statement
    case Begin => true
    case Savepoint(_) => server.open && !server.aborted
    case Release(n) => server.open && !server.aborted && Named(server.savepoints, n).Some?
    case RollbackTo(n) => server.open && Named(server.savepoints, n).Some?
    case _ => server.open
  }

  /** The COMMIT of an aborted transaction rolls it back, and is no error. */
  function Run<D>(server: Server<D>, statement: Statement): Server<D> {
    match statement
    case Begin => Server(server.committed, true, false, server.committed, [])
    case Savepoint(n) => server.(savepoints := server.savepoints + [Snapshot(n, server.current)])
    case Release(n) =>
      (match Named(server.savepoints, n)
       case Some(i) => if i < |server.savepoints| then server.(savepoints := server.savepoints[..i]) else server
       case None => server)
    case RollbackTo(n) =>
      (match Named(server.savepoints, n)
       case Some(i) =>
         if i < |server.savepoints|
         then server.(current := server.savepoints[i].data, aborted := false, savepoints := server.savepoints[..i + 1])
         else server
       case None => server)
    case Commit =>
      var kept := if server.aborted then server.committed else server.current;
      Server(kept, false, false, kept, [])
    case Rollback => Server(server.committed, false, false, server.committed, [])
  }

  /** A query: `change` gives the new data, or None where the server answers with an error. */
  function Answer<D>(server: Server<D>, change: D -> Option<D>): (Server<D>, bool) {
    if server.aborted || change(server.current).None? then (server.(aborted := true), false)
    else (server.(current := change(server.current).value), true)
  }

  // ----- the work done in a transaction -----

  /** A callback: queries, nested transactions, and how it ends. Each step says how the callback
      goes on, and how it goes on when the step throws (`Throw`, if it lets the error pass). */
  datatype Work<!D> =
    | Return
    | Throw
    | Query(change: D -> Option<D>, next: Work<D>, onError: Work<D>)
    | Break(rest: Work<D>)
    | Call(inner: Work<D>, next: Work<D>, onError: Work<D>)

  /** The session at some point of a callback: usable, aborted by a failed query, or given up. */
  datatype State = Sound | Aborted | Poisoned

  /** What a callback does: the data its queries made, whether it returns, the session it leaves. */
  datatype Effect<D> = Effect(data: D, returned: bool, state: State)

  /** How a callback ends once the session is given up: every step throws. */
  predicate ReturnsAnyway<D>(work: Work<D>) {
    match work
    case Return => true
    case Throw => false
    case Query(_, _, onError) => ReturnsAnyway(onError)
    case Break(rest) => ReturnsAnyway(rest)
    case Call(_, _, onError) => ReturnsAnyway(onError)
  }

  /** What the work means if every statement reaches the server and its answer comes back. A nested
      call that throws leaves no trace; one that returns over a failed query cannot be released, and
      none can begin after one: either gives the session up. */
  function Meaning<D>(work: Work<D>, data: D, aborted: bool): Effect<D>
    decreases work
  {
    var state := if aborted then Aborted else Sound;
    match work
    case Return => Effect(data, true, state)
    case Throw => Effect(data, false, state)
    case Query(change, next, onError) =>
      if aborted || change(data).None? then Meaning(onError, data, true)
      else Meaning(next, change(data).value, false)
    case Break(rest) => Effect(data, ReturnsAnyway(rest), Poisoned)
    case Call(inner, next, onError) =>
      if aborted || GivesUp(Meaning(inner, data, false)) then Effect(data, ReturnsAnyway(onError), Poisoned)
      else if Meaning(inner, data, false).returned then Meaning(next, Meaning(inner, data, false).data, false)
      else Meaning(onError, data, false)
  }

  /** A nested callback whose session cannot be used afterwards. */
  predicate GivesUp<D>(e: Effect<D>) {
    e.state.Poisoned? || (e.returned && e.state.Aborted?)
  }

  /** What an outermost call with this effect commits when it succeeds. */
  function Kept<D>(e: Effect<D>, before: D): D {
    if e.state.Aborted? then before else e.data
  }

  // ----- callbacks that let query errors pass -----

  /** Every failing query ends its callback; a caller may still catch the error of a nested call. */
  predicate Rethrows<D>(work: Work<D>) {
    match work
    case Return => true
    case Throw => true
    case Query(_, next, onError) => onError.Throw? && Rethrows(next)
    case Break(_) => false
    case Call(inner, next, onError) => Rethrows(inner) && Rethrows(next) && Rethrows(onError)
  }

  /** Nested transactions as one would wish them: the data, and whether the work returns. */
  function Plain<D>(work: Work<D>, data: D): (D, bool)
    decreases work
  {
    match work
    case Return => (data, true)
    case Throw => (data, false)
    case Query(change, next, onError) =>
      if change(data).None? then Plain(onError, data) else Plain(next, change(data).value)
    case Break(rest) => Plain(rest, data)
    case Call(inner, next, onError) =>
      var (after, returned) := Plain(inner, data);
      if returned then Plain(next, after) else Plain(onError, data)
  }

  /** A callback that swallows no query error means what one would wish, and never loses it. */
  lemma {:induction false} RethrowingIsPlain<D>(work: Work<D>, data: D)
    requires Rethrows(work)
    ensures var e := Meaning(work, data, false);
            && (e.data, e.returned) == Plain(work, data)
            && !e.state.Poisoned? && (e.returned ==> e.state.Sound?)
    decreases work
  {
    match work
    case Return =>
    case Throw =>
    case Query(change, next, onError) =>
      if change(data).Some? { RethrowingIsPlain(next, change(data).value); }
    case Call(inner, next, onError) =>
      RethrowingIsPlain(inner, data);
      var e := Meaning(inner, data, false);
      if e.returned { RethrowingIsPlain(next, e.data); } else { RethrowingIsPlain(onError, data); }
  }

  /** A callback ends in an aborted session and returns: some query of its own level failed, and
      every step after it was a query whose error it swallowed too. */
  predicate Swallows<D>(work: Work<D>, data: D)
    decreases work
  {
    match work
    case Return => false
    case Throw => false
    case Query(change, next, onError) =>
      if change(data).None? then OnlyQueries(onError) else Swallows(next, change(data).value)
    case Break(_) => false
    case Call(inner, next, onError) =>
      var e := Meaning(inner, data, false);
      !GivesUp(e) && if e.returned then Swallows(next, e.data) else Swallows(onError, data)
  }

  /** Along its error branches the work has nothing but queries, and returns. */
  predicate OnlyQueries<D>(work: Work<D>) {
    match work
    case Return => true
    case Query(_, _, onError) => OnlyQueries(onError)
    case _ => false
  }

  lemma {:induction false} AbortedReturns<D>(work: Work<D>, data: D)
    ensures var e := Meaning(work, data, true);
            && e.data == data && !e.state.Sound?
            && (e.returned && e.state.Aborted? <==> OnlyQueries(work))
    decreases work
  {
    if work.Query? { AbortedReturns(work.onError, data); }
  }

  /** The committed data is the callback's if and only if the callback swallowed no query error at
      the outermost level (or made no change that could be lost). */
  lemma {:induction false} CommitsExactly<D>(work: Work<D>, data: D)
    requires Meaning(work, data, false).returned && !Meaning(work, data, false).state.Poisoned?
    ensures var e := Meaning(work, data, false);
            && (e.state.Aborted? <==> Swallows(work, data))
            && (Kept(e, data) == e.data <==> !Swallows(work, data) || e.data == data)
    decreases work
  {
    SwallowsExactly(work, data);
  }

  lemma {:induction false} SwallowsExactly<D>(work: Work<D>, data: D)
    ensures var e := Meaning(work, data, false);
            e.returned && e.state.Aborted? <==> Swallows(work, data)
    decreases work
  {
    match work
    case Return =>
    case Throw =>
    case Query(change, next, onError) =>
      if change(data).None? { AbortedReturns(onError, data); } else { SwallowsExactly(next, change(data).value); }
    case Break(_) =>
    case Call(inner, next, onError) =>
      var e := Meaning(inner, data, false);
      if !GivesUp(e) {
        if e.returned { SwallowsExactly(next, e.data); } else { SwallowsExactly(onError, data); }
      }
  }

  // ----- the connection -----

  predicate Worked(event: Event) { event.Sent? && event.ok }

  predicate IsCommit(event: Event) { event.Sent? && event.statement.Commit? }

  /** Every event from here on is a statement that succeeded. */
  ghost predicate Healthy(log: seq<Event>, from: nat) {
    forall k: nat :: from <= k < |log| ==> Worked(log[k])
  }

  /** Nothing is sent after a failure: only the last event can be one. */
  ghost predicate Silenced(log: seq<Event>, from: nat) {
    forall k: nat :: from <= k < |log| - 1 ==> Worked(log[k])
  }

  /** No COMMIT from here on. */
  ghost predicate NoCommit(log: seq<Event>, from: nat) {
    forall k: nat :: from <= k < |log| ==> !IsCommit(log[k])
  }

  class PostgresConnection<!D> {
    /** The outside world: what happens to the k-th event, whether handing the client back throws. */
    const faults: nat -> Fault
    const releaseFails: bool

    // the transaction state of the context
    var active: bool
    var depth: nat
    var failed: bool
    var released: bool

    // the session
    var server: Server<D>
    var log: seq<Event>
    var releases: nat
    ghost var begun: nat

    /** The savepoints of a session that is not given up are 2, 3, ..., depth. */
    predicate Stacked()
      reads this
    {
      |server.savepoints| == depth - 1
      && forall i: nat :: i < |server.savepoints| ==> server.savepoints[i].name == i + 2
    }

    ghost predicate Valid()
      reads this
    {
      begun <= |log|
      && (!active ==> !server.open && !server.aborted && released)
      && (active ==>
            && depth >= 1 && !released
            && Silenced(log, begun)
            && (failed <==> !Healthy(log, begun))
            && (!failed ==> server.open && Stacked()))
    }

    /** From here on the connection does not lose anything. */
    ghost predicate AllFine(from: nat) {
      forall k: nat :: k >= from ==> faults(k) == Fine
    }

    constructor (committed: D, faults: nat -> Fault, releaseFails: bool)
      ensures Valid() && !active && server.committed == committed && log == [] && releases == 0
      ensures this.faults == faults && this.releaseFails == releaseFails
    {
      this.faults, this.releaseFails := faults, releaseFails;
      active, depth, failed, released := false, 0, false, true;
      server := Server(committed, false, false, committed, []);
      log, releases, begun := [], 0, 0;
    }

    /** Send one control statement; a failure poisons the transaction. */
    method Control(statement: Statement) returns (ok: bool)
      modifies this`failed, this`log, this`server
      ensures old(failed) ==> !ok && failed && log == old(log) && server == old(server)
      ensures !old(failed) ==> log == old(log) + [Sent(statement, ok)] && (failed <==> !ok)
      ensures !old(failed) ==> Worked(log[|log| - 1]) == ok
      ensures !old(failed) ==>
                ok == (faults(|old(log)|) == Fine && Accepts(old(server), statement))
      ensures !old(failed) ==>
                server == if faults(|old(log)|) != Before && Accepts(old(server), statement)
                          then Run(old(server), statement) else old(server)
    {
      if failed { return false; }
      var fault := faults(|log|);
      var accepted := Accepts(server, statement);
      ok := fault == Fine && accepted;
      log := log + [Sent(statement, ok)];
      if fault != Before && accepted { server := Run(server, statement); }
      if !ok { failed := true; }
    }

    /** Hand the client back once; a poisoned one is destroyed, and the server drops its
        transaction. */
    method ReleaseClient() returns (ok: bool)
      modifies this`active, this`released, this`releases, this`server
      ensures old(released) ==> ok && releases == old(releases) && server == old(server) && active == old(active)
      ensures !old(released) ==> releases == old(releases) + 1 && !active && ok == (failed || !releaseFails)
      ensures !old(released) ==> server == if failed then Run(old(server), Rollback) else old(server)
      ensures released
    {
      if released { return true; }
      released := true;
      releases := releases + 1;
      if failed { server := Run(server, Rollback); }
      active := false;
      ok := failed || !releaseFails;
    }

    lemma {:induction false} TopIsNamed()
      requires active && !failed && Valid() && depth > 1
      ensures Named(server.savepoints, depth) == Some(depth - 2)
    {
    }

    /** A query of the callback. Its error is passed on and does not poison the transaction. */
    method RunQuery(change: D -> Option<D>) returns (ok: bool)
      requires Valid() && active
      modifies this`server
      ensures Valid() && active && server.committed == old(server.committed)
      ensures failed ==> !ok && server == old(server)
      ensures !failed ==> (server, ok) == Answer(old(server), change)
    {
      if failed { return false; }
      var answer := Answer(server, change);
      server, ok := answer.0, answer.1;
    }

    method BeginTransaction() returns (ok: bool)
      requires Valid()
      modifies this
      ensures Valid() && old(log) <= log && server.committed == old(server.committed)
      ensures old(active) ==> active && depth == old(depth) + (if ok then 1 else 0)
      ensures old(active) ==> begun == old(begun) && releases == old(releases)
      ensures old(active) ==> (old(failed) ==> failed && log == old(log)) && ok == !failed
      ensures old(active) && ok ==>
                !old(server).aborted
                && server == old(server).(savepoints := old(server).savepoints + [Snapshot(depth, old(server).current)])
      ensures !old(active) ==> begun == |old(log)| && |log| == begun + 1 && active == ok
      ensures !old(active) ==> releases == old(releases) + if ok then 0 else 1
      ensures !old(active) && ok ==>
                depth == 1 && !failed && server == Server(old(server).committed, true, false, old(server).committed, [])
      ensures !old(active) && !ok ==> faults(begun) != Fine
      ensures NoCommit(log, |old(log)|)
      ensures old(active) && !old(failed) && AllFine(|old(log)|) ==> ok == !old(server).aborted
      ensures !old(active) && AllFine(|old(log)|) ==> ok
    {
      if active {
        var next := depth + 1;
        ok := Control(Savepoint(next));
        if ok { depth := next; }
        return;
      }
      depth, failed, released, begun := 1, false, false, |log|;
      ok := Control(Begin);
      if ok {
        active := true;
      } else {
        var _ := ReleaseClient();
      }
    }

    /** Nested: the savepoint is released, unless a query of the callback failed and was swallowed.
        Outermost: COMMIT, which an aborted server answers without an error though it keeps nothing. */
    method CommitTransaction() returns (ok: bool)
      requires Valid()
      modifies this
      ensures Valid()
      ensures !old(active) ==> !ok && server == old(server) && log == old(log) && releases == old(releases) && !active
      ensures begun == old(begun) && old(log) <= log
      ensures old(active) && old(depth) > 1 ==>
                && active && depth == old(depth) - (if ok then 1 else 0) && releases == old(releases)
                && server.committed == old(server.committed)
                && (old(failed) ==> failed && log == old(log)) && ok == !failed
                && (ok ==> !old(server).aborted
                           && server == old(server).(savepoints := old(server).savepoints[..|old(server).savepoints| - 1]))
                && NoCommit(log, |old(log)|)
                && (!old(failed) && AllFine(|old(log)|) ==> ok == !old(server).aborted)
      ensures old(active) && old(depth) == 1 ==>
                var kept := if old(server).aborted then old(server.committed) else old(server.current);
                && !active && releases == old(releases) + 1 && Silenced(log, begun)
                && (old(failed) ==> !ok && log == old(log) && server.committed == old(server.committed))
                && (!old(failed) ==> |log| == |old(log)| + 1 && IsCommit(log[|old(log)|]))
                && (ok ==> Healthy(log, begun) && server.committed == kept)
                && (!ok && !old(failed) ==> faults(|old(log)|) != Fine || releaseFails)
                && (server.committed == old(server.committed)
                    || (!old(failed) && server.committed == kept
                        && (ok || faults(|old(log)|) == After || releaseFails)))
    {
      if !active { return false; }
      if depth > 1 {
        if !failed { TopIsNamed(); }
        ok := Control(Statement.Release(depth));
        if ok { depth := depth - 1; }
        return;
      }
      ok := Control(Commit);
      var handed := ReleaseClient();
      ok := ok && handed;
    }

    /** The error of a failed rollback is only reported. */
    method RollbackTransaction()
      requires Valid()
      modifies this
      ensures Valid() && server.committed == old(server.committed)
      ensures !old(active) ==> server == old(server) && log == old(log) && releases == old(releases) && !active
      ensures begun == old(begun) && old(log) <= log
      ensures old(active) && old(depth) > 1 ==>
                && active && depth == old(depth) - 1 && releases == old(releases)
                && (old(failed) ==> failed && log == old(log))
                && (!failed ==> server == Server(old(server).committed, true, false,
                                                 old(server).savepoints[old(depth) - 2].data,
                                                 old(server).savepoints[..old(depth) - 2]))
                && (!old(failed) && AllFine(|old(log)|) ==> !failed)
      ensures old(active) && old(depth) == 1 ==> !active && releases == old(releases) + 1 && Silenced(log, begun)
      ensures NoCommit(log, |old(log)|)
    {
      if !active { return; }
      if depth > 1 {
        if !failed { TopIsNamed(); }
        var ok := Control(RollbackTo(depth));
        if ok {
          TopIsNamed();
          var _ := Control(Statement.Release(depth));
        }
        depth := depth - 1;
        return;
      }
      var _ := Control(Rollback);
      var _ := ReleaseClient();
    }

    /** The end of withTransaction: commit if the callback returned; roll back if it threw or the
        commit failed. */
    method Finish(returned: bool) returns (ok: bool)
      requires Valid() && active
      modifies this
      ensures Valid() && begun == old(begun) && old(log) <= log
      ensures old(depth) > 1 ==>
                var top := old(depth) - 2;
                && active && depth == old(depth) - 1 && releases == old(releases) && NoCommit(log, |old(log)|)
                && server.committed == old(server.committed) && (old(failed) ==> failed && log == old(log))
                && (ok ==> !failed)
                && (!failed ==> !(returned && old(server).aborted) && ok == returned
                                && server == Server(old(server).committed, true, false,
                                                    if ok then old(server).current else old(server).savepoints[top].data,
                                                    old(server).savepoints[..top]))
                && (!old(failed) && AllFine(|old(log)|) ==> (failed <==> returned && old(server).aborted))
      ensures old(depth) == 1 ==>
                var kept := if old(server).aborted then old(server.committed) else old(server.current);
                && !active && releases == old(releases) + 1 && Silenced(log, begun)
                && (ok ==> returned && !old(failed) && Healthy(log, begun) && server.committed == kept)
                && (server.committed == old(server.committed)
                    || (returned && !old(failed) && server.committed == kept && 0 < |log| && IsCommit(log[|log| - 1])
                        && (ok || faults(|log| - 1) == After || releaseFails)))
                && (returned && !old(failed) && AllFine(|old(log)|) && !releaseFails ==> ok)
    {
      ok := false;
      if returned {
        ok := CommitTransaction();
        if ok { return; }
      }
      RollbackTransaction();
    }

    /** What happens to the session while a callback runs in an open transaction: the depth is
        kept, no COMMIT is sent, the client stays checked out, and unless the session was
        poisoned the savepoints are those of before. */
    twostate predicate Within()
      reads this
    {
      && Valid() && active && depth == old(depth) && begun == old(begun) && releases == old(releases)
      && server.committed == old(server.committed)
      && old(log) <= log && NoCommit(log, |old(log)|)
      && (old(failed) ==> failed && log == old(log))
      && (!failed ==> server.savepoints == old(server.savepoints))
    }

    /** Run the callback: unless the session is given up it does what it means. Over a connection
        that loses nothing, the session is given up exactly when the meaning says so. */
    method Perform(work: Work<D>) returns (ok: bool)
      requires Valid() && active
      modifies this
      ensures Within()
      ensures var e := Meaning(work, old(server.current), old(server.aborted));
              && (!failed ==> server.current == e.data && ok == e.returned && !e.state.Poisoned?
                              && server.aborted == e.state.Aborted?)
              && (!old(failed) && AllFine(|old(log)|) ==> ok == e.returned && (failed <==> e.state.Poisoned?))
      ensures old(failed) ==> ok == ReturnsAnyway(work)
      decreases work, 0
    {
      match work
      case Return => ok := true;
      case Throw => ok := false;
      case Query(change, next, onError) =>
        var answered := RunQuery(change);
        if answered { ok := Perform(next); } else { ok := Perform(onError); }
      case Break(rest) =>
        if !failed {
          failed := true;
          log := log + [Broken];
          assert !Worked(log[|log| - 1]);
        }
        ok := Perform(rest);
      case Call(inner, next, onError) =>
        var returned := WithTransaction(inner);
        if returned { ok := Perform(next); } else { ok := Perform(onError); }
    }

    /** A transaction, or a savepoint inside one.
        Nested: the depth on exit is the depth on entry; unless the session was given up the
        data is what the work means, or untouched if it throws. A session that is given up never
        reports success.
        Outermost: the client is handed back once, nothing is sent after a failure, and success
        means that the data the work made was committed, unless the work returned over a failed
        query of its own, when nothing was. After an error nothing was committed, unless the
        answer to the COMMIT was lost or handing the client back threw. */
    method WithTransaction(work: Work<D>) returns (ok: bool)
      requires Valid()
      modifies this
      ensures Valid() && active == old(active)
      ensures old(active) ==> Within() && (ok ==> !failed)
      ensures old(active) ==>
                var e := Meaning(work, old(server.current), false);
                && (!failed ==> !old(server.aborted) && !server.aborted && !GivesUp(e)
                                && ok == e.returned && server.current == if ok then e.data else old(server.current))
                && (!old(failed) && AllFine(|old(log)|) ==> (failed <==> old(server.aborted) || GivesUp(e)))
      ensures !old(active) ==>
                && !server.open && releases == old(releases) + 1 && released
                && old(log) < log && Silenced(log, |old(log)|)
      ensures !old(active) ==>
                var before := old(server.committed);
                var e := Meaning(work, before, false);
                if ok then e.returned && !e.state.Poisoned? && server.committed == Kept(e, before)
                           && Healthy(log, |old(log)|)
                else || server.committed == before
                     || (e.returned && e.state.Sound? && server.committed == e.data && IsCommit(log[|log| - 1])
                         && (faults(|log| - 1) == After || releaseFails))
      ensures !old(active) && AllFine(|old(log)|) && !releaseFails ==>
                var e := Meaning(work, old(server.committed), false);
                ok == (e.returned && !e.state.Poisoned?)
      decreases work, 1
    {
      ok := BeginTransaction();
      if !ok { return; }
      var returned := Perform(work);
      ok := Finish(returned);
    }
  }

  /** On concrete values: the first query adds 1, the second fails and its error is swallowed. The
      call succeeds and nothing is committed. */
  method SwallowedErrorCommitsNothing() returns (ok: bool, committed: int)
    ensures ok && committed == 0
  {
    var second := Query((x: int) => None, Return, Return);
    var work := Query((x: int) => Some(x + 1), second, Throw);
    var connection := new PostgresConnection(0, k => Fine, false);
    ok := connection.WithTransaction(work);
    committed := connection.server.committed;
  }
}
