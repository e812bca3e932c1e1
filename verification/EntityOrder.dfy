/** `orderEntities`: the greedy topological sort of entities by foreign key. */
module EntityOrder {
  import opened Options
  import opened SchemaTypes
  import opened Ordering

  datatype OrderError =
    | UndeclaredTable(entity: string, table: string)
    | UnknownColumn(entity: string, references: string)
    | CyclicDependencies

  datatype OrderResult = Ordered(entities: seq<Entity>) | OrderFailed(error: OrderError)

  // ---------------------------------------------------------------- the graph

  /** What `Normalize` establishes before it asks for an order: table names are distinct
      and match `tablePattern`, so none is empty. */
  ghost predicate WellNamed(es: seq<Entity>) {
    && (forall i, j :: 0 <= i < j < |es| ==> es[i].table != es[j].table)
    && (forall i :: 0 <= i < |es| ==> es[i].table != "")
  }

  function Tables(es: seq<Entity>): set<string> { set e | e in es :: e.table }

  /** Tables an entity must come after: self references are not dependencies. */
  function Deps(e: Entity): set<string> {
    set fk | fk in e.foreignKeys && fk.refTable != e.table :: fk.refTable
  }

  ghost predicate HasColumn(e: Entity, name: string) {
    exists f :: f in e.fields && f.name == name
  }

  ghost predicate Resolves(es: seq<Entity>, fk: ForeignKey) {
    exists p :: p in es && p.table == fk.refTable && (fk.refField == "id" || HasColumn(p, fk.refField))
  }

  ghost predicate EntityResolves(es: seq<Entity>, e: Entity) {
    forall fk :: fk in e.foreignKeys ==> Resolves(es, fk)
  }

  ghost predicate Resolvable(es: seq<Entity>) {
    forall e :: e in es ==> EntityResolves(es, e)
  }

  /** A walk along foreign keys from each entity to one it depends on. */
  ghost predicate Walk(es: seq<Entity>, w: seq<nat>) {
    && (forall k :: 0 <= k < |w| ==> w[k] < |es|)
    && (forall k, m :: 0 <= k < m < |w| && m == k + 1 ==> es[w[m]].table in Deps(es[w[k]]))
  }

  ghost predicate Cycle(es: seq<Entity>, w: seq<nat>) {
    |w| >= 2 && Walk(es, w) && w[0] == w[|w| - 1]
  }

  ghost predicate Acyclic(es: seq<Entity>) { forall w :: !Cycle(es, w) }

  // ------------------------------------------------- orders, as positions in the input

  ghost predicate Distinct(p: seq<nat>) { forall i, j :: 0 <= i < j < |p| ==> p[i] != p[j] }

  ghost predicate Arrangement(es: seq<Entity>, p: seq<nat>) {
    |p| == |es| && Distinct(p) && forall k :: 0 <= k < |p| ==> p[k] < |es|
  }

  function TablesAt(es: seq<Entity>, p: seq<nat>): set<string>
    requires forall k :: 0 <= k < |p| ==> p[k] < |es|
  {
    set k | 0 <= k < |p| :: es[p[k]].table
  }

  /** Every entity's dependencies are placed strictly before it. */
  ghost predicate DependencyOrder(es: seq<Entity>, p: seq<nat>) {
    && Arrangement(es, p)
    && forall k :: 0 <= k < |p| ==> Deps(es[p[k]]) <= TablesAt(es, p[..k])
  }

  ghost predicate LexLe(a: seq<nat>, b: seq<nat>) {
    a == b || exists k :: 0 <= k < |a| && k < |b| && a[..k] == b[..k] && a[k] < b[k]
  }

  function Pick(es: seq<Entity>, p: seq<nat>): (r: seq<Entity>)
    requires forall k :: 0 <= k < |p| ==> p[k] < |es|
    ensures |r| == |p| && forall k :: 0 <= k < |p| ==> r[k] == es[p[k]]
  {
    seq(|p|, k requires 0 <= k < |p| => es[p[k]])
  }

  // ------------------------------------------------- the greedy choice

  predicate Ready(es: seq<Entity>, done: set<string>, i: nat)
    requires i < |es|
  {
    es[i].table !in done && Deps(es[i]) <= done
  }

  /** The least position at or after `i` that is ready. */
  function FirstReady(es: seq<Entity>, done: set<string>, i: nat): (r: Option<nat>)
    requires i <= |es|
    ensures r.Some? ==> i <= r.value < |es| && Ready(es, done, r.value)
                        && forall j :: i <= j < r.value ==> !Ready(es, done, j)
    ensures r.None? ==> forall j :: i <= j < |es| ==> !Ready(es, done, j)
    decreases |es| - i
  {
    if i == |es| then None
    else if Ready(es, done, i) then Some(i)
    else FirstReady(es, done, i + 1)
  }

  function Greedy(es: seq<Entity>, p: seq<nat>): (r: Option<seq<nat>>)
    requires |p| <= |es| && forall k :: 0 <= k < |p| ==> p[k] < |es|
    ensures r.Some? ==> |r.value| == |es| && forall k :: 0 <= k < |es| ==> r.value[k] < |es|
    decreases |es| - |p|
  {
    if |p| == |es| then Some(p)
    else match FirstReady(es, TablesAt(es, p), 0)
         case None => None
         case Some(i) => Greedy(es, p + [i])
  }

  /** The order as a whole, for a schema whose references resolve. */
  function GreedyOrder(es: seq<Entity>): OrderResult {
    match Greedy(es, [])
    case Some(p) => Ordered(Pick(es, p))
    case None => OrderFailed(CyclicDependencies)
  }

  // ------------------------------------------------- what the greedy choice achieves

  ghost predicate Prefix(es: seq<Entity>, p: seq<nat>) {
    && |p| <= |es| && Distinct(p)
    && (forall k :: 0 <= k < |p| ==> p[k] < |es|)
    && (forall k :: 0 <= k < |p| ==> Deps(es[p[k]]) <= TablesAt(es, p[..k]))
  }

  lemma TablesAtMember(es: seq<Entity>, p: seq<nat>, i: nat)
    requires WellNamed(es) && i < |es| && forall k :: 0 <= k < |p| ==> p[k] < |es|
    ensures es[i].table in TablesAt(es, p) <==> i in p
  {
    if es[i].table in TablesAt(es, p) {
      var k :| 0 <= k < |p| && es[p[k]].table == es[i].table;
      assert p[k] == i;
    }
    if i in p { var k :| 0 <= k < |p| && p[k] == i; }
  }

  lemma TablesAtAppend(es: seq<Entity>, p: seq<nat>, i: nat)
    requires i < |es| && forall k :: 0 <= k < |p| ==> p[k] < |es|
    ensures TablesAt(es, p + [i]) == TablesAt(es, p) + {es[i].table}
  {
    var q := p + [i];
    assert q[|p|] == i && forall k :: 0 <= k < |p| ==> q[k] == p[k];
    assert es[q[|p|]].table in TablesAt(es, q);
    forall t | t in TablesAt(es, p) ensures t in TablesAt(es, q) {
      var k :| 0 <= k < |p| && es[p[k]].table == t;
      assert es[q[k]].table == t;
    }
  }

  lemma PrefixExtends(es: seq<Entity>, p: seq<nat>, i: nat)
    requires WellNamed(es) && Prefix(es, p) && |p| < |es| && i < |es| && Ready(es, TablesAt(es, p), i)
    ensures Prefix(es, p + [i])
  {
    TablesAtMember(es, p, i);
    var q := p + [i];
    forall k | 0 <= k < |q| ensures Deps(es[q[k]]) <= TablesAt(es, q[..k]) {
      if k < |p| { assert q[..k] == p[..k]; } else { assert q[..k] == p; }
    }
  }

  lemma {:induction false} GreedyIsDependencyOrder(es: seq<Entity>, p: seq<nat>)
    requires WellNamed(es) && Prefix(es, p)
    ensures Greedy(es, p).Some? ==> DependencyOrder(es, Greedy(es, p).value) && p <= Greedy(es, p).value
    decreases |es| - |p|
  {
    if |p| < |es| {
      match FirstReady(es, TablesAt(es, p), 0)
      case None =>
      case Some(i) =>
        PrefixExtends(es, p, i);
        GreedyIsDependencyOrder(es, p + [i]);
    }
  }

  /** Whatever dependency order extends the current prefix, its next entity is ready. */
  lemma NextIsReady(es: seq<Entity>, p: seq<nat>, q: seq<nat>)
    requires WellNamed(es) && DependencyOrder(es, q) && p < q
    ensures Ready(es, TablesAt(es, p), q[|p|])
  {
    assert q[..|p|] == p;
    assert forall k :: 0 <= k < |p| ==> p[k] == q[k];
    TablesAtMember(es, p, q[|p|]);
  }

  lemma {:induction false} GreedyIsLeast(es: seq<Entity>, p: seq<nat>, q: seq<nat>)
    requires WellNamed(es) && Prefix(es, p) && DependencyOrder(es, q) && p <= q
    ensures Greedy(es, p).Some? && LexLe(Greedy(es, p).value, q)
    decreases |es| - |p|
  {
    if |p| == |es| {
      assert p == q;
    } else {
      NextIsReady(es, p, q);
      var i := FirstReady(es, TablesAt(es, p), 0).value;
      PrefixExtends(es, p, i);
      if i == q[|p|] {
        assert q[..|p| + 1] == p + [i];
        GreedyIsLeast(es, p + [i], q);
      } else {
        assert i < q[|p|];
        GreedyCompletes(es, p + [i], q);
        GreedyIsDependencyOrder(es, p + [i]);
        var r := Greedy(es, p + [i]).value;
        assert r[..|p|] == p && q[..|p|] == p && r[|p|] == i;
      }
    }
  }

  /** If a dependency order exists at all, the greedy choice never gets stuck: the earliest
      entity of that order which is still missing is always ready. */
  lemma {:induction false} GreedyCompletes(es: seq<Entity>, p: seq<nat>, q: seq<nat>)
    requires WellNamed(es) && Prefix(es, p) && DependencyOrder(es, q)
    ensures Greedy(es, p).Some?
    decreases |es| - |p|
  {
    if |p| < |es| {
      var k := FirstMissing(es, p, q, 0);
      TablesAtMember(es, p, q[k]);
      forall t | t in Deps(es[q[k]]) ensures t in TablesAt(es, p) {
        var m :| 0 <= m < k && es[q[..k][m]].table == t;
        TablesAtMember(es, p, q[m]);
      }
      assert Ready(es, TablesAt(es, p), q[k]);
      var i := FirstReady(es, TablesAt(es, p), 0).value;
      PrefixExtends(es, p, i);
      GreedyCompletes(es, p + [i], q);
    }
  }

  lemma {:induction false} FirstMissing(es: seq<Entity>, p: seq<nat>, q: seq<nat>, i: nat) returns (k: nat)
    requires Arrangement(es, q) && |p| < |es| && i <= |q|
    requires forall j :: 0 <= j < i ==> q[j] in p
    ensures k < |q| && q[k] !in p && forall j :: 0 <= j < k ==> q[j] in p
    decreases |q| - i
  {
    if i == |q| {
      DistinctWithin(q, p);
      assert false;
    } else if q[i] in p {
      k := FirstMissing(es, p, q, i + 1);
    } else {
      k := i;
    }
  }

  /** Distinct values drawn from `p` are no more than `p` is long. */
  lemma {:induction false} DistinctWithin(q: seq<nat>, p: seq<nat>)
    requires Distinct(q) && forall j :: 0 <= j < |q| ==> q[j] in p
    ensures |q| <= |p|
  {
    ElemsOfDistinct(q);
    ElemsOfAny(p);
    SubsetCardinality(Elems(q), Elems(p));
  }

  ghost function Elems(q: seq<nat>): set<nat> { set x | x in q }

  lemma {:induction false} ElemsOfDistinct(q: seq<nat>)
    requires Distinct(q)
    ensures |Elems(q)| == |q|
  {
    if q != [] {
      var r, x := q[..|q| - 1], q[|q| - 1];
      ElemsOfDistinct(r);
      assert q == r + [x];
      assert Elems(q) == Elems(r) + {x};
    }
  }

  lemma {:induction false} ElemsOfAny(p: seq<nat>)
    ensures |Elems(p)| <= |p|
  {
    if p != [] {
      var r, x := p[..|p| - 1], p[|p| - 1];
      ElemsOfAny(r);
      assert p == r + [x];
      assert Elems(p) == Elems(r) + {x};
    }
  }

  ghost predicate IsLeastOrder(es: seq<Entity>, p: seq<nat>) {
    DependencyOrder(es, p) && forall q :: DependencyOrder(es, q) ==> LexLe(p, q)
  }

  // ------------------------------------------------- stuck exactly when there is a cycle

  /** A dependency order places each step of a walk strictly earlier, so no walk closes. */
  lemma {:induction false} WalkGoesBack(es: seq<Entity>, q: seq<nat>, w: seq<nat>, a: nat, b: nat)
    requires WellNamed(es) && DependencyOrder(es, q) && Walk(es, w) && |w| >= 2
    requires a < |q| && b < |q| && q[a] == w[0] && q[b] == w[|w| - 1]
    ensures b < a
    decreases |w|
  {
    var t := es[w[1]].table;
    var m :| 0 <= m < a && es[q[..a][m]].table == t;
    assert q[m] == w[1];
    if |w| > 2 {
      var v := w[1..];
      assert forall k :: 0 <= k < |v| ==> v[k] == w[k + 1];
      WalkGoesBack(es, q, v, m, b);
    }
  }

  lemma OrderImpliesAcyclic(es: seq<Entity>, q: seq<nat>)
    requires WellNamed(es) && DependencyOrder(es, q)
    ensures Acyclic(es)
  {
    forall w | Cycle(es, w) ensures false {
      var a := FindPosition(es, q, w[0]);
      WalkGoesBack(es, q, w, a, a);
    }
  }

  lemma FindPosition(es: seq<Entity>, q: seq<nat>, i: nat) returns (a: nat)
    requires Arrangement(es, q) && i < |es|
    ensures a < |q| && q[a] == i
  {
    if i !in q {
      var r := q + [i];
      assert Distinct(r);
      var all := seq(|es|, k => k);
      forall j | 0 <= j < |r| ensures r[j] in all { assert all[r[j]] == r[j]; }
      DistinctWithin(r, all);
      assert false;
    }
    a :| 0 <= a < |q| && q[a] == i;
  }

  /** Each stuck entity waits for the one `next` assigns to it, which is stuck too. */
  ghost predicate Edges(es: seq<Entity>, stuck: set<nat>, next: seq<nat>) {
    && |next| == |es| && (forall j :: j in stuck ==> j < |es|)
    && (forall j {:trigger next[j]} :: j in stuck ==> next[j] in stuck && es[next[j]].table in Deps(es[j]))
  }

  lemma {:induction false} Trail(es: seq<Entity>, stuck: set<nat>, next: seq<nat>, i: nat, n: nat)
    returns (w: seq<nat>)
    requires i in stuck && Edges(es, stuck, next)
    ensures |w| == n + 1 && Walk(es, w) && forall k :: 0 <= k < |w| ==> w[k] in stuck
  {
    if n == 0 {
      w := [i];
    } else {
      var v := Trail(es, stuck, next, i, n - 1);
      w := v + [next[v[n - 1]]];
      WalkExtends(es, v, next[v[n - 1]]);
    }
  }

  lemma WalkExtends(es: seq<Entity>, v: seq<nat>, x: nat)
    requires Walk(es, v) && v != [] && x < |es| && es[x].table in Deps(es[v[|v| - 1]])
    ensures Walk(es, v + [x])
  {
  }

  /** More steps than there are places to be: some place is visited twice. */
  lemma Repeats(w: seq<nat>, places: set<nat>) returns (a: nat, b: nat)
    requires |w| > |places| && forall k :: 0 <= k < |w| ==> w[k] in places
    ensures a < b < |w| && w[a] == w[b]
  {
    if Distinct(w) {
      ElemsOfDistinct(w);
      SubsetCardinality(Elems(w), places);
      assert false;
    }
    a, b :| 0 <= a < b < |w| && w[a] == w[b];
  }

  /** An entity that waits, and is itself still missing, waits for one that is missing too. */
  lemma WaitsForMissing(es: seq<Entity>, p: seq<nat>, j: nat)
    requires WellNamed(es) && Prefix(es, p) && j < |es| && j !in p
    requires Deps(es[j]) <= Tables(es)
    requires !Ready(es, TablesAt(es, p), j)
    ensures exists k :: 0 <= k < |es| && k !in p && es[k].table in Deps(es[j])
  {
    TablesAtMember(es, p, j);
    var t :| t in Deps(es[j]) && t !in TablesAt(es, p);
    var e :| e in es && e.table == t;
    var k :| 0 <= k < |es| && es[k] == e;
    TablesAtMember(es, p, k);
  }

  ghost predicate StuckSet(es: seq<Entity>, stuck: set<nat>) {
    && (forall j :: j in stuck ==> j < |es|)
    && (forall j {:trigger Blocked(es, stuck, j)} :: j in stuck ==> Blocked(es, stuck, j))
  }

  ghost predicate Blocked(es: seq<Entity>, stuck: set<nat>, j: nat) {
    j < |es| && exists k :: k in stuck && k < |es| && es[k].table in Deps(es[j])
  }

  ghost function Blocker(es: seq<Entity>, stuck: set<nat>, j: nat): (k: nat)
    requires StuckSet(es, stuck) && j in stuck
    ensures k in stuck && es[k].table in Deps(es[j])
  {
    assert Blocked(es, stuck, j);
    var k :| k in stuck && k < |es| && es[k].table in Deps(es[j]);
    k
  }

  lemma StuckSetHasCycle(es: seq<Entity>, stuck: set<nat>, start: nat)
    requires StuckSet(es, stuck) && start in stuck
    ensures !Acyclic(es)
  {
    var next := seq(|es|, j requires 0 <= j => if j in stuck then Blocker(es, stuck, j) else 0);
    FollowingCloses(es, stuck, next, start);
  }

  lemma FollowingCloses(es: seq<Entity>, stuck: set<nat>, next: seq<nat>, start: nat)
    requires start in stuck && Edges(es, stuck, next)
    ensures !Acyclic(es)
  {
    var w := Trail(es, stuck, next, start, |stuck|);
    var a, b := Repeats(w, stuck);
    SliceIsCycle(es, w, a, b);
  }

  lemma SliceIsCycle(es: seq<Entity>, w: seq<nat>, a: nat, b: nat)
    requires Walk(es, w) && a < b < |w| && w[a] == w[b]
    ensures Cycle(es, w[a..b + 1])
  {
    var c := w[a..b + 1];
    assert forall k :: 0 <= k < |c| ==> c[k] == w[a + k];
  }

  lemma StuckImpliesCycle(es: seq<Entity>, p: seq<nat>)
    requires WellNamed(es) && Prefix(es, p) && |p| < |es|
    requires forall j :: 0 <= j < |es| ==> Deps(es[j]) <= Tables(es)
    requires FirstReady(es, TablesAt(es, p), 0).None?
    ensures !Acyclic(es)
  {
    var stuck := set i | 0 <= i < |es| && i !in p;
    forall j | j in stuck ensures Blocked(es, stuck, j) {
      WaitsForMissing(es, p, j);
    }
    var all := seq(|es|, k => k);
    var start := FirstMissing(es, p, all, 0);
    StuckSetHasCycle(es, stuck, all[start]);
  }

  lemma {:induction false} GreedyFailsOnlyOnCycles(es: seq<Entity>, p: seq<nat>)
    requires WellNamed(es) && Prefix(es, p)
    requires forall j :: 0 <= j < |es| ==> Deps(es[j]) <= Tables(es)
    ensures Greedy(es, p).None? ==> !Acyclic(es)
    decreases |es| - |p|
  {
    if |p| < |es| {
      match FirstReady(es, TablesAt(es, p), 0)
      case None => StuckImpliesCycle(es, p);
      case Some(i) =>
        PrefixExtends(es, p, i);
        GreedyFailsOnlyOnCycles(es, p + [i]);
    }
  }

  lemma {:induction false} ResolvableDeps(es: seq<Entity>)
    requires Resolvable(es)
    ensures forall j :: 0 <= j < |es| ==> Deps(es[j]) <= Tables(es)
  {
    forall j, t | 0 <= j < |es| && t in Deps(es[j]) ensures t in Tables(es) {
      var fk :| fk in es[j].foreignKeys && fk.refTable == t;
      assert EntityResolves(es, es[j]) && Resolves(es, fk);
    }
  }

  /** The main result about the order: it exists exactly when the foreign keys, self references
      aside, form no cycle; and it is then the dependency order that is lexicographically least
      by original position. */
  lemma GreedyOrderCorrect(es: seq<Entity>)
    requires WellNamed(es) && Resolvable(es)
    ensures GreedyOrder(es).Ordered? <==> Acyclic(es)
    ensures GreedyOrder(es).Ordered? ==>
              exists p :: IsLeastOrder(es, p) && GreedyOrder(es).entities == Pick(es, p)
  {
    ResolvableDeps(es);
    GreedyFailsOnlyOnCycles(es, []);
    if Greedy(es, []).Some? {
      var p := Greedy(es, []).value;
      GreedyIsDependencyOrder(es, []);
      OrderImpliesAcyclic(es, p);
      forall q | DependencyOrder(es, q) ensures LexLe(p, q) { GreedyIsLeast(es, [], q); }
    }
  }

  /** An order is a permutation of the entities: none is lost, none is repeated. */
  lemma ArrangementIsPermutation(es: seq<Entity>, p: seq<nat>)
    requires WellNamed(es) && Arrangement(es, p)
    ensures multiset(Pick(es, p)) == multiset(es)
  {
    var r := Pick(es, p);
    forall e ensures multiset(r)[e] == multiset(es)[e] {
      if e in es {
        var i :| 0 <= i < |es| && es[i] == e;
        var a := FindPosition(es, p, i);
        OnceInSequence(r, a);
        OnceInSequence(es, i);
      } else {
        assert e !in r;
      }
    }
  }

  /** Ordering entities that already respect their dependencies changes nothing. */
  lemma OrderOfOrdered(es: seq<Entity>)
    requires WellNamed(es)
    requires forall k :: 0 <= k < |es| ==> Deps(es[k]) <= Tables(es[..k])
    ensures GreedyOrder(es) == Ordered(es)
  {
    var all := seq(|es|, k => k);
    forall k | 0 <= k < |es| ensures Deps(es[all[k]]) <= TablesAt(es, all[..k]) {
      TablesOfIdentity(es, all, k);
    }
    assert DependencyOrder(es, all);
    GreedyIsLeast(es, [], all);
    GreedyIsDependencyOrder(es, []);
    IdentityIsLeast(Greedy(es, []).value, all);
    assert Pick(es, all) == es;
  }

  lemma TablesOfIdentity(es: seq<Entity>, all: seq<nat>, k: nat)
    requires k <= |es| && all == seq(|es|, i => i)
    ensures Tables(es[..k]) <= TablesAt(es, all[..k])
  {
    forall t | t in Tables(es[..k]) ensures t in TablesAt(es, all[..k]) {
      var e :| e in es[..k] && e.table == t;
      var m :| 0 <= m < k && es[..k][m] == e;
      assert es[all[..k][m]].table == t;
    }
  }

  lemma IdentityIsLeast(p: seq<nat>, all: seq<nat>)
    requires Distinct(p) && |p| == |all| && LexLe(p, all) && all == seq(|p|, i => i)
    ensures p == all
  {
    forall k | 0 <= k < |p| && p[..k] == all[..k] ensures p[k] >= all[k] {
      if p[k] < k {
        AgreesBefore(p, all, k, p[k]);
        assert false;
      }
    }
  }

  lemma AgreesBefore(p: seq<nat>, all: seq<nat>, k: nat, m: nat)
    requires m < k < |p| == |all| && all == seq(|p|, i => i) && p[..k] == all[..k]
    ensures p[m] == m
  {
    assert p[..k][m] == all[..k][m];
  }

  // ------------------------------------------------- the procedure

  /** `error` describes a reference of `e` that does not resolve. */
  ghost predicate BadReference(es: seq<Entity>, e: Entity, fk: ForeignKey, error: OrderError) {
    && e in es && fk in e.foreignKeys && !Resolves(es, fk)
    && error == if fk.refTable in Tables(es) then UnknownColumn(e.name, fk.references)
                else UndeclaredTable(e.name, fk.refTable)
  }

  ghost predicate Index(es: seq<Entity>, byTable: map<string, Entity>) {
    byTable.Keys == Tables(es) && forall e :: e in es ==> byTable[e.table] == e
  }

  method FindColumn(parent: Entity, name: string) returns (found: bool)
    ensures found <==> HasColumn(parent, name)
  {
    found := false;
    for m := 0 to |parent.fields|
      invariant !found && forall k :: 0 <= k < m ==> parent.fields[k].name != name
    {
      if parent.fields[m].name == name {
        return true;
      }
    }
  }

  lemma ParentOf(es: seq<Entity>, byTable: map<string, Entity>, fk: ForeignKey)
    requires Index(es, byTable)
    ensures fk.refTable !in byTable ==> !Resolves(es, fk)
    ensures fk.refTable in byTable ==> byTable[fk.refTable] in es && byTable[fk.refTable].table == fk.refTable
    ensures fk.refTable in byTable ==>
      (Resolves(es, fk) <==> fk.refField == "id" || HasColumn(byTable[fk.refTable], fk.refField))
  {
    if fk.refTable in byTable {
      var q :| q in es && q.table == fk.refTable;
      assert byTable[q.table] == q;
      forall p | p in es && p.table == fk.refTable ensures p == q { assert byTable[p.table] == p; }
    }
  }

  /** The body of the loop over entities: resolve one entity's references and collect what it waits for. */
  method CollectDependencies(es: seq<Entity>, byTable: map<string, Entity>, e: Entity)
    returns (failure: Option<OrderError>, deps: set<string>)
    requires e in es
    ensures Index(es, byTable) ==> (failure.None? <==> EntityResolves(es, e))
    ensures Index(es, byTable) && failure.Some? ==> exists fk :: BadReference(es, e, fk, failure.value)
    ensures failure.None? ==> deps == Deps(e)
  {
    deps := {};
    for k := 0 to |e.foreignKeys|
      invariant deps == set fk | fk in e.foreignKeys[..k] && fk.refTable != e.table :: fk.refTable
      invariant Index(es, byTable) ==> forall m :: 0 <= m < k ==> Resolves(es, e.foreignKeys[m])
    {
      var fk := e.foreignKeys[k];
      if Index(es, byTable) { ParentOf(es, byTable, fk); }
      if fk.refTable !in byTable {
        assert Index(es, byTable) ==> BadReference(es, e, fk, UndeclaredTable(e.name, fk.refTable));
        return Some(UndeclaredTable(e.name, fk.refTable)), deps;
      }
      if fk.refField != "id" {
        var found := FindColumn(byTable[fk.refTable], fk.refField);
        if !found {
          assert Index(es, byTable) ==> BadReference(es, e, fk, UnknownColumn(e.name, fk.references));
          return Some(UnknownColumn(e.name, fk.references)), deps;
        }
      }
      assert e.foreignKeys[..k + 1] == e.foreignKeys[..k] + [fk];
      if fk.refTable != e.table {
        deps := deps + {fk.refTable};
      }
    }
    assert e.foreignKeys[..|e.foreignKeys|] == e.foreignKeys;
    failure := None;
  }

  ghost predicate DependencyMap(es: seq<Entity>, deps: map<string, set<string>>) {
    forall j :: 0 <= j < |es| ==> es[j].table in deps && deps[es[j].table] == Deps(es[j])
  }

  method CheckReferences(es: seq<Entity>, byTable: map<string, Entity>)
    returns (failure: Option<OrderError>, deps: map<string, set<string>>)
    ensures WellNamed(es) && Index(es, byTable) ==>
      && (failure.None? <==> Resolvable(es))
      && (failure.Some? ==> exists e, fk :: BadReference(es, e, fk, failure.value))
      && (failure.None? ==> DependencyMap(es, deps))
    ensures failure.None? ==> Tables(es) <= deps.Keys
  {
    deps := map[];
    for i := 0 to |es|
      invariant WellNamed(es) ==> DependencyMap(es[..i], deps)
      invariant Index(es, byTable) ==> forall j :: 0 <= j < i ==> EntityResolves(es, es[j])
      invariant forall j :: 0 <= j < i ==> es[j].table in deps
    {
      var problem, waits := CollectDependencies(es, byTable, es[i]);
      if problem.Some? {
        return problem, deps;
      }
      deps := deps[es[i].table := waits];
    }
    assert es[..|es|] == es;
    failure := None;
  }

  /** `candidate` is the table of the first ready entity, or "" when none is. */
  ghost predicate Chosen(es: seq<Entity>, position: map<string, nat>, done: set<string>, candidate: string) {
    if candidate == "" then FirstReady(es, done, 0).None?
    else candidate in position && FirstReady(es, done, 0) == Some(position[candidate])
         && es[position[candidate]].table == candidate
  }

  ghost predicate ChosenBefore(es: seq<Entity>, position: map<string, nat>, done: set<string>, candidate: string,
                               i: nat)
    requires i <= |es|
  {
    if candidate == "" then forall j :: 0 <= j < i ==> !Ready(es, done, j)
    else && candidate in position && position[candidate] < i && es[position[candidate]].table == candidate
         && Ready(es, done, position[candidate])
         && forall j :: 0 <= j < position[candidate] ==> !Ready(es, done, j)
  }

  /** The scan of one round. */
  method FindCandidate(es: seq<Entity>, position: map<string, nat>, deps: map<string, set<string>>,
                       done: set<string>)
    returns (candidate: string)
    requires Tables(es) <= deps.Keys && Tables(es) <= position.Keys
    ensures candidate != "" ==> candidate in Tables(es) - done
    ensures WellNamed(es) && DependencyMap(es, deps) && Positions(es, position) ==>
      Chosen(es, position, done, candidate)
  {
    candidate := "";
    for i := 0 to |es|
      invariant candidate != "" ==> candidate in Tables(es) - done
      invariant WellNamed(es) && DependencyMap(es, deps) && Positions(es, position) ==>
        ChosenBefore(es, position, done, candidate, i)
    {
      var e := es[i];
      if e.table in done {
        continue;
      }
      var ready := deps[e.table] <= done;
      if ready && (candidate == "" || position[e.table] < position[candidate]) {
        candidate := e.table;
      }
    }
  }

  /** The result for entities with distinct tables, none of them empty. */
  ghost predicate Correct(es: seq<Entity>, r: OrderResult) {
    && (r.Ordered? <==> Resolvable(es) && Acyclic(es))
    && (r == OrderFailed(CyclicDependencies) <==> Resolvable(es) && !Acyclic(es))
    && (!Resolvable(es) ==> r.OrderFailed? && exists e, fk :: BadReference(es, e, fk, r.error))
    && (Resolvable(es) ==> WellNamed(es) && r == GreedyOrder(es))
    && (r.Ordered? ==> multiset(r.entities) == multiset(es))
  }

  lemma GreedyIsCorrect(es: seq<Entity>)
    requires WellNamed(es) && Resolvable(es)
    ensures Correct(es, GreedyOrder(es))
  {
    GreedyOrderCorrect(es);
    if GreedyOrder(es).Ordered? {
      GreedyIsDependencyOrder(es, []);
      ArrangementIsPermutation(es, Greedy(es, []).value);
    }
  }

  /** Any other list of entities is refused too: a table that repeats or is empty is never placed, so
      in the end no candidate is left. */
  method OrderEntities(es: seq<Entity>) returns (r: OrderResult)
    ensures WellNamed(es) ==> Correct(es, r)
    ensures !WellNamed(es) ==> r.OrderFailed?
  {
    var byTable, position := IndexTables(es);
    var failure, deps := CheckReferences(es, byTable);
    if failure.Some? {
      return OrderFailed(failure.value);
    }
    r := PlaceAll(es, byTable, position, deps);
    if WellNamed(es) { GreedyIsCorrect(es); }
  }

  ghost predicate Positions(es: seq<Entity>, position: map<string, nat>) {
    forall j :: 0 <= j < |es| ==> es[j].table in position && position[es[j].table] == j
  }

  lemma TablesMore(es: seq<Entity>, i: nat)
    requires i < |es|
    ensures Tables(es[..i + 1]) == Tables(es[..i]) + {es[i].table}
  {
    assert es[..i + 1] == es[..i] + [es[i]];
  }

  lemma IndexMore(es: seq<Entity>, i: nat, byTable: map<string, Entity>, position: map<string, nat>)
    requires WellNamed(es) && i < |es| && Index(es[..i], byTable) && Positions(es[..i], position)
    ensures Index(es[..i + 1], byTable[es[i].table := es[i]])
    ensures Positions(es[..i + 1], position[es[i].table := i])
  {
    TablesMore(es, i);
    forall e | e in es[..i + 1] ensures byTable[es[i].table := es[i]][e.table] == e {
      var j :| 0 <= j < i + 1 && es[j] == e;
      assert j < i ==> es[..i][j] == e;
    }
  }

  method IndexTables(es: seq<Entity>) returns (byTable: map<string, Entity>, position: map<string, nat>)
    ensures byTable.Keys == position.Keys == Tables(es)
    ensures WellNamed(es) ==> Index(es, byTable) && Positions(es, position)
  {
    byTable, position := map[], map[];
    for i := 0 to |es|
      invariant byTable.Keys == position.Keys == Tables(es[..i])
      invariant WellNamed(es) ==> Index(es[..i], byTable) && Positions(es[..i], position)
    {
      TablesMore(es, i);
      if WellNamed(es) { IndexMore(es, i, byTable, position); }
      byTable, position := byTable[es[i].table := es[i]], position[es[i].table := i];
    }
    assert es[..|es|] == es;
  }

  /** The outer loop: place the first ready entity until all are placed or none is ready. */
  method PlaceAll(es: seq<Entity>, byTable: map<string, Entity>, position: map<string, nat>,
                  deps: map<string, set<string>>)
    returns (r: OrderResult)
    requires byTable.Keys == position.Keys == Tables(es) && Tables(es) <= deps.Keys
    requires WellNamed(es) ==> Index(es, byTable) && Positions(es, position) && DependencyMap(es, deps)
    ensures WellNamed(es) ==> r == GreedyOrder(es)
    ensures !WellNamed(es) ==> r.OrderFailed?
  {
    var ordered: seq<Entity>, done: set<string> := [], {};
    ghost var p: seq<nat> := [];
    while |ordered| < |es|
      invariant |done| == |ordered| <= |es| && done <= Tables(es) && "" !in done
      invariant WellNamed(es) ==> Placed(es, p, ordered, done)
      decreases |es| - |ordered|
    {
      var candidate := FindCandidate(es, position, deps, done);
      if candidate == "" {
        return OrderFailed(CyclicDependencies);
      }
      if WellNamed(es) {
        PlacedExtends(es, p, ordered, done, position[candidate]);
        p := p + [position[candidate]];
      }
      ordered, done := ordered + [byTable[candidate]], done + {candidate};
    }
    AllPlaced(es, done);
    r := Ordered(ordered);
  }

  /** Where the loop stands: the positions placed so far are a prefix of the greedy order. */
  ghost predicate Placed(es: seq<Entity>, p: seq<nat>, ordered: seq<Entity>, done: set<string>)
    requires WellNamed(es)
  {
    && Prefix(es, p) && ordered == Pick(es, p) && done == TablesAt(es, p) && Greedy(es, p) == Greedy(es, [])
  }

  lemma PlacedExtends(es: seq<Entity>, p: seq<nat>, ordered: seq<Entity>, done: set<string>, i: nat)
    requires WellNamed(es) && Placed(es, p, ordered, done) && |p| < |es| && FirstReady(es, done, 0) == Some(i)
    ensures Placed(es, p + [i], ordered + [es[i]], done + {es[i].table})
  {
    PrefixExtends(es, p, i);
    TablesAtAppend(es, p, i);
  }

  /** As many tables as entities, none empty: then the names were distinct. */
  lemma AllPlaced(es: seq<Entity>, done: set<string>)
    requires done <= Tables(es) && |done| >= |es| && "" !in done
    ensures WellNamed(es)
  {
    FewTables(es);
    SubsetCardinality(done, Tables(es));
    SubsetSameSize(done, Tables(es));
    forall i | 0 <= i < |es| ensures es[i].table != "" { assert es[i] in es && es[i].table in Tables(es); }
  }

  lemma {:induction false} FewTables(es: seq<Entity>)
    ensures |Tables(es)| <= |es|
    ensures |Tables(es)| == |es| ==> forall i, j :: 0 <= i < j < |es| ==> es[i].table != es[j].table
  {
    if es != [] {
      var front, last := es[..|es| - 1], es[|es| - 1];
      FewTables(front);
      assert es == front + [last];
      assert Tables(es) == Tables(front) + {last.table};
      forall i, j | 0 <= i < j < |es| && |Tables(es)| == |es| ensures es[i].table != es[j].table {
        assert i < |front| && front[i] in front && front[i].table in Tables(front);
        assert j < |front| ==> front[j] == es[j];
      }
    }
  }
}
