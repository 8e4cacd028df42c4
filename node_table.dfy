/** The value-level view of a net's three name-keyed maps (`_place`, `_trans`,
    `_node`), the guarded insertion both `add_place` and `add_transition` perform
    on them, and what every sequence of such insertions preserves. */
module NodeTable {
  import opened Errors

  datatype Table<N> = Table(place: map<string, N>, trans: map<string, N>, node: map<string, N>)
  {
    /** The map of one namespace. */
    function Members(k: Kind): map<string, N> {
      if k.PlaceKind? then place else trans
    }
  }

  /** The net's structural invariant: no name is both a place and a transition,
      and the combined index is exactly the union of the two. */
  ghost predicate Valid<N>(t: Table<N>) {
    t.place.Keys !! t.trans.Keys && t.node == t.place + t.trans
  }

  /** Inserting `n` of kind `k` under `name`: the name is checked first against
      the namespace of `k`, then against the other one, and only then are the
      map of `k` and the combined index updated. */
  function Add<N>(t: Table<N>, k: Kind, name: string, n: N): (r: Result<Table<N>, ConstraintError>)
    ensures r.Failure? <==> name in t.place || name in t.trans
    ensures Valid(t) ==> (r.Failure? <==> name in t.node)
    ensures r.Failure? && name in t.Members(k) ==> r.error == Exists(k, name)
    ensures r.Failure? && name !in t.Members(k) ==> r.error == OtherExists(k.Other(), name)
    ensures r.Success? ==>
      && r.value.Members(k) == t.Members(k)[name := n]
      && r.value.Members(k.Other()) == t.Members(k.Other())
      && r.value.node == t.node[name := n]
    ensures Valid(t) && r.Success? ==> Valid(r.value)
  {
    if name in t.Members(k) then Failure(Exists(k, name))
    else if name in t.Members(k.Other()) then Failure(OtherExists(k.Other(), name))
    else if k.PlaceKind? then Success(Table(t.place[name := n], t.trans, t.node[name := n]))
    else Success(Table(t.place, t.trans[name := n], t.node[name := n]))
  }

  /** One call of `add_place` (kind PlaceKind) or `add_transition` (TransitionKind). */
  datatype Request<N> = Request(kind: Kind, name: string, node: N)

  /** A caller that catches the `ConstraintError` of a rejected request goes on
      with the table as it was. */
  function Step<N>(t: Table<N>, q: Request<N>): Table<N> {
    match Add(t, q.kind, q.name, q.node)
    case Success(t') => t'
    case Failure(_) => t
  }

  function Run<N>(t: Table<N>, qs: seq<Request<N>>): Table<N>
    decreases |qs|
  {
    if qs == [] then t else Run(Step(t, qs[0]), qs[1..])
  }

  function Names<N>(qs: seq<Request<N>>): set<string>
    decreases |qs|
  {
    if qs == [] then {} else {qs[0].name} + Names(qs[1..])
  }

  /** `m'` keeps every entry of `m`, bound to the same value. */
  ghost predicate Extends<N>(m: map<string, N>, m': map<string, N>) {
    forall x :: x in m ==> x in m' && m'[x] == m[x]
  }

  /** Whatever sequence of insertions is attempted, the invariant holds after it,
      and the net's names are exactly those it had plus those requested. */
  lemma {:induction false} RunKeepsValid<N>(t: Table<N>, qs: seq<Request<N>>)
    requires Valid(t)
    ensures Valid(Run(t, qs))
    ensures Run(t, qs).node.Keys == t.node.Keys + Names(qs)
    decreases |qs|
  {
    if qs != [] {
      var t' := Step(t, qs[0]);
      assert t'.node.Keys == t.node.Keys + {qs[0].name};
      RunKeepsValid(t', qs[1..]);
    }
  }

  /** No insertion ever removes or replaces a node: each name stays bound to the
      object first added under it, in the namespace it was added to. */
  lemma {:induction false} RunKeepsEntries<N>(t: Table<N>, qs: seq<Request<N>>)
    ensures Extends(t.place, Run(t, qs).place)
    ensures Extends(t.trans, Run(t, qs).trans)
    decreases |qs|
  {
    if qs != [] {
      var t' := Step(t, qs[0]);
      assert Extends(t.place, t'.place) && Extends(t.trans, t'.trans);
      RunKeepsEntries(t', qs[1..]);
    }
  }

  /** `place(name)` / `transition(name)`: the stored object, or a "not found" error.
      Assumed from the doctests; the accessor's code is not part of this model. */
  function Find<N>(t: Table<N>, k: Kind, name: string): Result<N, ConstraintError> {
    if name in t.Members(k) then Success(t.Members(k)[name]) else Failure(NotFound(k, name))
  }

  /** `has_place(name)` / `has_transition(name)`, assumed likewise. */
  predicate Has<N>(t: Table<N>, k: Kind, name: string) {
    name in t.Members(k)
  }

  /** The doctest round trip: an absent name is not found, and after a successful
      insertion the very object inserted is found under its name, only in its own
      namespace. */
  lemma AddThenFind<N>(t: Table<N>, k: Kind, name: string, n: N)
    requires Valid(t) && name !in t.node
    ensures Find(t, k, name) == Failure(NotFound(k, name)) && !Has(t, k, name)
    ensures Add(t, k, name, n).Success?
    ensures Find(Add(t, k, name, n).value, k, name) == Success(n)
    ensures Has(Add(t, k, name, n).value, k, name) && !Has(Add(t, k, name, n).value, k.Other(), name)
  {
  }
}
