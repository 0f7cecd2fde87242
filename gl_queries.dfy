/**
 * GPU timer queries grouped by name, one registry per WebGL context.
 *
 * The context's `EXT_disjoint_timer_query` extension is a log of the begin and end calls made
 * on it and a counter of the queries it created. Whether a query's result is available, and
 * whether the GPU reported a disjoint operation when it was looked at, are oracles.
 */
module TimerQueries {
  import opened Wrappers

  type Query = nat

  datatype TimerCall = BeginQuery(query: Query) | EndQuery

  /** A WebGL context and its timer extension. `timerExtension` is whether
      `getExtension('EXT_disjoint_timer_query')` gives the extension rather than `null`. */
  class GLContext {
    const timerExtension: bool
    var created: nat              // queries created so far; the next one gets this number
    var calls: seq<TimerCall>

    constructor (timerExtension: bool)
      ensures this.timerExtension == timerExtension && created == 0 && calls == []
    {
      this.timerExtension := timerExtension;
      created := 0;
      calls := [];
    }

    /** `ext.createQueryEXT()`. */
    method CreateQuery() returns (q: Query)
      requires timerExtension
      modifies this`created
      ensures q == old(created) && created == old(created) + 1
    {
      q := created;
      created := created + 1;
    }
  }

  /** A method called on the `null` the context gives for a missing extension: TypeError. */
  datatype TimerError = NoTimerExtension

  /** The queries of one name that `resolve` keeps: those whose result is not yet available,
      or was read while the GPU reported a disjoint operation. */
  function Remaining(qs: seq<Query>, available: Query -> bool, disjoint: Query -> bool): seq<Query>
  {
    if qs == [] then []
    else
      var init := Remaining(qs[..|qs| - 1], available, disjoint);
      var q := qs[|qs| - 1];
      if available(q) && !disjoint(q) then init else init + [q]
  }

  /** Filtering keeps the order: the queries kept from `a + b` are those kept from `a`, then
      those kept from `b`. */
  lemma {:induction false} RemainingAppend(a: seq<Query>, b: seq<Query>, available: Query -> bool,
                                           disjoint: Query -> bool)
    ensures Remaining(a + b, available, disjoint) == Remaining(a, available, disjoint) + Remaining(b, available, disjoint)
    decreases |b|
  {
    if b == [] {
      assert a + b == a;
    } else {
      var b' := b[..|b| - 1];
      assert (a + b)[..|a + b| - 1] == a + b';
      RemainingAppend(a, b', available, disjoint);
    }
  }

  /** A query is kept exactly when it was pending and is not yet resolved, as often as it
      occurred. */
  lemma {:induction false} RemainingMeaning(qs: seq<Query>, available: Query -> bool, disjoint: Query -> bool)
    ensures var r := Remaining(qs, available, disjoint);
      && |r| <= |qs|
      && (forall q :: q in r <==> q in qs && !(available(q) && !disjoint(q)))
      && (forall q :: multiset(r)[q] == if available(q) && !disjoint(q) then 0 else multiset(qs)[q])
  {
    if qs != [] {
      var init := qs[..|qs| - 1];
      RemainingMeaning(init, available, disjoint);
      assert qs == init + [qs[|qs| - 1]];
    }
  }

  /** Resolving twice with the same answers changes nothing the second time. */
  lemma {:induction false} RemainingIdempotent(qs: seq<Query>, available: Query -> bool, disjoint: Query -> bool)
    ensures Remaining(Remaining(qs, available, disjoint), available, disjoint) == Remaining(qs, available, disjoint)
  {
    if qs != [] {
      var init := qs[..|qs| - 1];
      var q := qs[|qs| - 1];
      RemainingIdempotent(init, available, disjoint);
      var r := Remaining(init, available, disjoint);
      if !(available(q) && !disjoint(q)) {
        RemainingAppend(r, [q], available, disjoint);
        assert Remaining([q], available, disjoint) == [q] by {
          assert [q][..0] == [];
        }
      }
    }
  }

  /** The registry after `resolve`: a name stays, with its remaining queries, iff one remains. */
  function Resolved(queries: map<string, seq<Query>>, available: Query -> bool, disjoint: Query -> bool):
    map<string, seq<Query>>
  {
    map name | name in queries && Remaining(queries[name], available, disjoint) != []
      :: Remaining(queries[name], available, disjoint)
  }

  /** After `resolve` a name is present exactly when one of its queries is still pending, and
      it then holds exactly those; a second `resolve` with the same answers changes nothing. */
  lemma ResolvedMeaning(queries: map<string, seq<Query>>, available: Query -> bool, disjoint: Query -> bool)
    ensures var r := Resolved(queries, available, disjoint);
      && (forall name :: name in r <==>
            name in queries && exists q | q in queries[name] :: !(available(q) && !disjoint(q)))
      && (forall name | name in r :: r[name] == Remaining(queries[name], available, disjoint))
      && Resolved(r, available, disjoint) == r
  {
    var r := Resolved(queries, available, disjoint);
    forall name | name in queries
      ensures Remaining(queries[name], available, disjoint) != [] <==>
        exists q | q in queries[name] :: !(available(q) && !disjoint(q))
    {
      RemainingMeaning(queries[name], available, disjoint);
      var kept := Remaining(queries[name], available, disjoint);
      if kept != [] {
        assert kept[0] in kept;
      }
    }
    forall name | name in r ensures Remaining(r[name], available, disjoint) == r[name] {
      RemainingIdempotent(queries[name], available, disjoint);
    }
  }

  datatype CreateError = NotThroughForGL

  /** The registry once `start` has made sure the name has a list. */
  function Listed(queries: map<string, seq<Query>>, name: string): (r: map<string, seq<Query>>)
    ensures name in r && r[name] == (if name in queries then queries[name] else [])
    ensures forall n | n != name :: (n in r <==> n in queries) && (n in queries ==> r[n] == queries[n])
  {
    if name in queries then queries else queries[name := []]
  }

  /** The timer queries of one context, by name. */
  class GLQueries {
    const gl: GLContext
    var queries: map<string, seq<Query>>

    constructor (gl: GLContext)
      ensures this.gl == gl && queries == map[]
    {
      this.gl := gl;
      queries := map[];
    }

    /** `new GLQueries(gl)`: refused unless `forGL` has raised the `cached` flag. */
    static method Create(registry: Registry, gl: GLContext) returns (r: Result<GLQueries, CreateError>)
      ensures r.Failure? <==> !registry.cached
      ensures r.Success? ==> fresh(r.value) && r.value.gl == gl && r.value.queries == map[]
    {
      if !registry.cached {
        return Failure(NotThroughForGL);
      }
      var q := new GLQueries(gl);
      return Success(q);
    }

    /** `start(name)`: the name's list is created empty if absent; then a new query is begun
        and appended to it. Without the extension the call throws after the list was created.
        Every other name keeps its list. */
    method Start(name: string) returns (r: Result<Query, TimerError>)
      modifies this`queries, gl`created, gl`calls
      ensures !gl.timerExtension ==>
        r == Failure(NoTimerExtension) && queries == Listed(old(queries), name)
        && gl.created == old(gl.created) && gl.calls == old(gl.calls)
      ensures gl.timerExtension ==>
        r == Success(old(gl.created)) && gl.created == old(gl.created) + 1
        && gl.calls == old(gl.calls) + [BeginQuery(r.value)]
        && queries == Listed(old(queries), name)[name := Listed(old(queries), name)[name] + [r.value]]
    {
      if name !in queries {
        queries := queries[name := []];
      }
      if !gl.timerExtension {
        return Failure(NoTimerExtension);
      }
      var query := gl.CreateQuery();
      gl.calls := gl.calls + [BeginQuery(query)];
      queries := queries[name := queries[name] + [query]];
      return Success(query);
    }

    /** `end(query)`: ends the running query on the extension, or throws without one; the
        registry is untouched either way. */
    method End(query: Query) returns (r: Result<(), TimerError>)
      modifies gl`calls
      ensures r.Failure? <==> !gl.timerExtension
      ensures gl.calls == old(gl.calls) + (if gl.timerExtension then [EndQuery] else [])
      ensures queries == old(queries)
    {
      if !gl.timerExtension {
        return Failure(NoTimerExtension);
      }
      gl.calls := gl.calls + [EndQuery];
      return Success(());
    }

    /** The inner loop of `resolve`: the queries of one name that are not ready to read. */
    static method RemainingQueries(qs: seq<Query>, available: Query -> bool, disjoint: Query -> bool)
      returns (remaining: seq<Query>)
      ensures remaining == Remaining(qs, available, disjoint)
    {
      remaining := [];
      for k := 0 to |qs|
        invariant remaining == Remaining(qs[..k], available, disjoint)
      {
        assert qs[..k + 1][..k] == qs[..k];
        var query := qs[k];
        if !(available(query) && !disjoint(query)) {
          remaining := remaining + [query];
        }
      }
      assert qs[..|qs|] == qs;
    }

    /** `resolve()`: every name is filtered down to its remaining queries, and deleted when
        none remain. Without the extension the first name visited that holds a query throws;
        the names visited before it held none and are deleted, and the rest stay as they were. */
    method Resolve(available: Query -> bool, disjoint: Query -> bool) returns (r: Result<(), TimerError>)
      modifies this`queries
      ensures r.Failure? <==> !gl.timerExtension && exists name | name in old(queries) :: old(queries)[name] != []
      ensures r.Success? ==> queries == Resolved(old(queries), available, disjoint)
      ensures r.Failure? ==>
        && (forall name | name in queries :: name in old(queries) && queries[name] == old(queries)[name])
        && (forall name | name in old(queries) && name !in queries :: old(queries)[name] == [])
    {
      var names := queries.Keys;
      ghost var original := queries;
      while names != {}
        invariant names <= original.Keys
        invariant forall name | name in original && name !in names ::
          (name in queries <==> name in Resolved(original, available, disjoint))
          && (name in queries ==> queries[name] == Remaining(original[name], available, disjoint))
        invariant forall name | name in names :: name in queries && queries[name] == original[name]
        invariant forall name | name in queries :: name in original
        invariant !gl.timerExtension ==>
          (forall name | name in original && name !in names :: original[name] == [] && name !in queries)
        decreases names
      {
        var name :| name in names;
        if !gl.timerExtension && queries[name] != [] {
          return Failure(NoTimerExtension);
        }
        var remainingQueries := RemainingQueries(queries[name], available, disjoint);
        if |remainingQueries| == 0 {
          queries := map n | n in queries && n != name :: queries[n];
        } else {
          queries := queries[name := remainingQueries];
        }
        names := names - {name};
      }
      return Success(());
    }
  }

  /** The module-level `queriesPerGL` map and `cached` flag. */
  class Registry {
    var perGL: map<GLContext, GLQueries>
    var cached: bool

    constructor ()
      ensures perGL == map[] && !cached
    {
      perGL := map[];
      cached := false;
    }

    /** `GLQueries.forGL(gl)`: the context's registry, created on first use and the same object
        ever after. */
    method ForGL(gl: GLContext) returns (queries: GLQueries)
      requires !cached
      modifies this
      ensures !cached
      ensures old(gl in perGL) ==> queries == old(perGL[gl]) && perGL == old(perGL)
      ensures !old(gl in perGL) ==>
        fresh(queries) && queries.gl == gl && queries.queries == map[] && perGL == old(perGL)[gl := queries]
    {
      if gl in perGL {
        return perGL[gl];
      }
      cached := true;
      var created := GLQueries.Create(this, gl);
      queries := created.value;
      perGL := perGL[gl := queries];
      cached := false;
    }
  }
}
