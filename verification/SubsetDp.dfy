/** The independent cycle detector: dynamic programming over (visited set, last vertex) pairs. */
module SubsetDp {
  import opened Outcomes
  import opened Graphs
  import opened Cycles
  import opened Existence

  type Key = (set<nat>, nat)
  type States = map<Key, seq<nat>>

  ghost predicate TrailFrom(g: Graph, start: nat, m: nat, p: seq<nat>) {
    IsTrail(g, p) && |p| == m && p[0] == start
  }

  function KeyOf(p: seq<nat>): Key
    requires |p| > 0
  {
    (SeenSet(p), p[|p| - 1])
  }

  /** The keys are exactly the pairs some search path of m vertices realises, and each stored path does. */
  ghost predicate Tabulates(g: Graph, start: nat, m: nat, states: States) {
    && (forall key :: key in states ==> TrailFrom(g, start, m, states[key]) && KeyOf(states[key]) == key)
    && (forall p :: TrailFrom(g, start, m, p) ==> KeyOf(p) in states)
  }

  /** The vertices a state can be extended by, from the key alone. */
  function Available(g: Graph, start: nat, key: Key): set<nat> {
    set v | v in (if key.1 < g.n then g.rows[key.1] else {}) && v !in key.0 && v > start
  }

  lemma AvailableIsChildren(g: Graph, p: seq<nat>)
    requires |p| > 0
    ensures Available(g, p[0], KeyOf(p)) == Children(g, p)
  {
  }

  /** Extending a stored path by an available vertex realises the extended key. */
  lemma ExtendState(g: Graph, start: nat, m: nat, p: seq<nat>, v: nat)
    requires m > 0 && TrailFrom(g, start, m, p) && v in Available(g, start, KeyOf(p))
    ensures TrailFrom(g, start, m + 1, p + [v])
    ensures KeyOf(p + [v]) == (KeyOf(p).0 + {v}, v)
  {
    AvailableIsChildren(g, p);
    ExtendTrail(g, p, v);
    assert SeenSet(p + [v]) == SeenSet(p) + {v};
  }

  /** Which of the next table's keys the states in `keys` account for. */
  ghost predicate Extends(g: Graph, start: nat, m: nat, keys: set<Key>, following: States) {
    && (forall key :: key in following ==>
          TrailFrom(g, start, m + 1, following[key]) && KeyOf(following[key]) == key)
    && (forall key, v :: key in keys && v in Available(g, start, key) ==> (key.0 + {v}, v) in following)
  }

  /** A round over a full table gives the full table for one vertex more. */
  lemma RoundTabulates(g: Graph, start: nat, m: nat, states: States, following: States)
    requires m > 0 && Tabulates(g, start, m, states) && Extends(g, start, m, states.Keys, following)
    ensures Tabulates(g, start, m + 1, following)
  {
    hide TrailFrom, KeyOf, Available;
    forall p | TrailFrom(g, start, m + 1, p)
      ensures |p| > 0 && KeyOf(p) in following
    {
      var before, v := SplitTrail(g, start, m, p);
      assert KeyOf(before) in states.Keys;
    }
  }

  /** A longer search path extends a shorter one by a vertex its key offers. */
  lemma SplitTrail(g: Graph, start: nat, m: nat, p: seq<nat>) returns (before: seq<nat>, v: nat)
    requires m > 0 && TrailFrom(g, start, m + 1, p)
    ensures |p| > 0 && TrailFrom(g, start, m, before) && |before| > 0 && v in Available(g, start, KeyOf(before))
    ensures KeyOf(p) == (KeyOf(before).0 + {v}, v)
  {
    before, v := p[..m], p[m];
    TrailPrefix(g, p, m);
    assert p == before + [v];
    ExtendTrail(g, before, v);
    AvailableIsChildren(g, before);
    assert SeenSet(p) == SeenSet(before) + {v};
  }

  lemma {:induction false} EmptyTableStaysEmpty(g: Graph, start: nat, m: nat, length: nat)
    requires 0 < m <= length && Tabulates(g, start, m, map[])
    ensures Tabulates(g, start, length, map[])
  {
    forall p | TrailFrom(g, start, length, p)
      ensures false
    {
      TrailPrefix(g, p, m);
      assert TrailFrom(g, start, m, p[..m]);
    }
  }

  /** The table of single edges. */
  method FirstTable(g: Graph, start: nat) returns (states: States)
    requires start < g.n
    ensures Tabulates(g, start, 2, states)
  {
    states := map[];
    var neighbours := g.rows[start];
    while neighbours != {}
      invariant neighbours <= g.rows[start]
      invariant forall key :: key in states ==> TrailFrom(g, start, 2, states[key]) && KeyOf(states[key]) == key
      invariant forall v :: v in g.rows[start] && v > start && v !in neighbours ==> ({start, v}, v) in states
      decreases |neighbours|
    {
      var neighbour := Lowest(neighbours);
      if neighbour > start {
        EdgeSymmetric(g, start, neighbour);
        assert Edge(g, start, neighbour);
        assert TrailFrom(g, start, 2, [start, neighbour]);
        assert SeenSet([start, neighbour]) == {start, neighbour};
        assert KeyOf([start, neighbour]) == ({start, neighbour}, neighbour);
        states := states[({start, neighbour}, neighbour) := [start, neighbour]];
      }
      neighbours := neighbours - {neighbour};
    }
    forall p | TrailFrom(g, start, 2, p)
      ensures KeyOf(p) in states
    {
      assert Edge(g, p[0], p[0 + 1]);
      assert SeenSet(p) == {start, p[1]};
    }
  }

  /** One round; the dictionary may be walked in any order and the first path stored for a key stays. */
  method NextTable(g: Graph, start: nat, ghost m: nat, states: States) returns (following: States)
    requires m > 0 && Tabulates(g, start, m, states)
    ensures Tabulates(g, start, m + 1, following)
  {
    following := map[];
    var keys := states.Keys;
    while keys != {}
      invariant keys <= states.Keys
      invariant Extends(g, start, m, states.Keys - keys, following)
      decreases |keys|
    {
      var key :| key in keys;
      var path := states[key];
      following := ExtendAll(g, start, m, key, path, states.Keys - keys, following);
      assert states.Keys - (keys - {key}) == (states.Keys - keys) + {key};
      keys := keys - {key};
    }
    assert states.Keys - {} == states.Keys;
    RoundTabulates(g, start, m, states, following);
  }

  method ExtendAll(g: Graph, start: nat, ghost m: nat, key: Key, path: seq<nat>,
                   ghost done: set<Key>, following0: States) returns (following: States)
    requires m > 0 && TrailFrom(g, start, m, path) && KeyOf(path) == key
    requires Extends(g, start, m, done, following0)
    ensures Extends(g, start, m, done + {key}, following)
  {
    following := following0;
    var available := Available(g, start, key);
    while available != {}
      invariant available <= Available(g, start, key)
      invariant Extends(g, start, m, done, following)
      invariant forall v :: v in Available(g, start, key) && v !in available ==> (key.0 + {v}, v) in following
      decreases |available|
    {
      var vertex := Lowest(available);
      ExtendState(g, start, m, path, vertex);
      var next := (key.0 + {vertex}, vertex);
      if next !in following {
        following := following[next := path + [vertex]];
      }
      available := available - {vertex};
    }
  }

  method FindCycleDynamic(g: Graph, length: int) returns (r: Option<seq<nat>>)
    ensures Answers(g, length, r)
  {
    if length < 3 || length > g.n {
      NoLongCycle(g, length);
      return None;
    }
    var start := 0;
    while start < g.n
      invariant 0 <= start <= g.n
      invariant forall s :: 0 <= s < start ==> Hopeless(g, length, [s])
    {
      var states := FirstTable(g, start);
      var m := 2;
      while m < length
        invariant 2 <= m <= length
        invariant Tabulates(g, start, m, states)
      {
        states := NextTable(g, start, m, states);
        m := m + 1;
        if states == map[] {
          EmptyTableStaysEmpty(g, start, m, length);
          break;
        }
      }
      assert Tabulates(g, start, length, states);
      var keys := states.Keys;
      while keys != {}
        invariant keys <= states.Keys
        invariant forall key :: key in states.Keys - keys ==> !Edge(g, key.1, start)
        decreases |keys|
      {
        var key :| key in keys;
        if Edge(g, key.1, start) {
          var path := states[key];
          assert IsCycle(g, path) && MinFirst(path);
          return Some(path);
        }
        keys := keys - {key};
      }
      NothingCloses(g, length, start, states);
      start := start + 1;
    }
    HopelessStartsMeanNoCycle(g, length);
    r := None;
  }

  lemma NothingCloses(g: Graph, length: nat, start: nat, states: States)
    requires length >= 3 && Tabulates(g, start, length, states)
    requires forall key :: key in states.Keys ==> !Edge(g, key.1, start)
    ensures Hopeless(g, length, [start])
  {
    forall q | TrailFrom(g, start, length, q)
      ensures !Closes(g, q)
    {
      assert KeyOf(q) in states.Keys;
    }
    forall q
      ensures !Completes(g, length, [start], q)
    {
      if |q| > 0 {
        assert q[..1] == [q[0]];
      }
    }
  }
}
