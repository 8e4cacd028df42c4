/** The doctest scenarios of `PetriNet` and one cross-namespace collision scenario,
    verified using only the methods' contracts. */
module Doctests {
  import opened Errors
  import opened Collaborators
  import opened Nets

  /** `add_place`: the first `Place('p')` is accepted; a second is refused with
      "place 'p' exists" and the net still maps 'p' to the first one. */
  method PlaceTwice() returns (n: PetriNet, p: Node, first: Outcome<NetError>, again: Outcome<NetError>)
    ensures first == Pass
    ensures again == Fail(Collision(ConstraintError("place 'p' exists")))
    ensures n.place == map["p" := p] && n.trans == map[]
  {
    n := new PetriNet("N");
    p := new Node.Place("p");
    first := n.AddPlace(p);
    assert n.place == map["p" := p];
    var p2 := new Node.Place("p");
    again := n.AddPlace(p2);
    assert again == Fail(Collision(Exists(PlaceKind, "p")));
    assert Exists(PlaceKind, "p").message == "place 'p' exists";
  }

  /** `add_transition`: the first `Transition('t')` is accepted and
      `transition('t') is t`; a second is refused with "transition 't' exists". */
  method TransitionTwice() returns (n: PetriNet, t: Node, first: Outcome<NetError>, again: Outcome<NetError>)
    ensures first == Pass
    ensures again == Fail(Collision(ConstraintError("transition 't' exists")))
    ensures n.trans == map["t" := t] && n.place == map[]
  {
    n := new PetriNet("N");
    var g := new Expression("x==1");
    t := new Node.Transition("t", g);
    assert t.LockableBy(n) && n.trans == map[] && n.place == map[];
    first := n.AddTransition(t);
    assert first == Pass && n.trans == map["t" := t] && n.place == map[];
    var g2 := new Expression("True");
    var t2 := new Node.Transition("t", g2);
    again := n.AddTransition(t2);
    assert again == Fail(Collision(Exists(TransitionKind, "t")));
    assert Exists(TransitionKind, "t").message == "transition 't' exists";
  }

  /** A transition named like an existing place is refused with "a place 'p' exists". */
  method TransitionOverPlace() returns (first: Outcome<NetError>, cross: Outcome<NetError>)
    ensures first == Pass
    ensures cross == Fail(Collision(ConstraintError("a place 'p' exists")))
  {
    var n := new PetriNet("N");
    var p := new Node.Place("p");
    assert p.LockableBy(n);
    first := n.AddPlace(p);
    assert first == Pass && n.place == map["p" := p] && n.trans == map[];
    var g := new Expression("True");
    var t := new Node.Transition("p", g);
    cross := n.AddTransition(t);
    assert cross == Fail(Collision(OtherExists(PlaceKind, "p")));
    assert OtherExists(PlaceKind, "p").message == "a place 'p' exists";
  }
}
