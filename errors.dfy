/** Failure-carrying results, the two node kinds of a Petri net, and the
    `ConstraintError` messages raised by the net container. */
module Errors {

  datatype Option<+T> = None | Some(value: T)

  datatype Result<+T, +E> = Success(value: T) | Failure(error: E)

  /** The outcome of an operation that returns nothing on success (`None` in Python)
      and raises on failure. */
  datatype Outcome<+E> = Pass | Fail(error: E)

  /** The two namespaces of a net. */
  datatype Kind = PlaceKind | TransitionKind
  {
    function Other(): Kind {
      if PlaceKind? then TransitionKind else PlaceKind
    }

    /** The word used for the kind in error messages. */
    function Word(): string {
      if PlaceKind? then "place" else "transition"
    }
  }

  /** A violated namespace constraint, carrying its human-readable message. */
  datatype ConstraintError = ConstraintError(message: string)

  /** "<kind> '<name>' exists": the name is taken in the namespace being added to. */
  function Exists(k: Kind, name: string): ConstraintError {
    ConstraintError(k.Word() + " '" + name + "' exists")
  }

  /** "a <kind> '<name>' exists": the name is taken in the other namespace. */
  function OtherExists(k: Kind, name: string): ConstraintError {
    ConstraintError("a " + k.Word() + " '" + name + "' exists")
  }

  /** "<kind> '<name>' not found": a lookup of an absent name. */
  function NotFound(k: Kind, name: string): ConstraintError {
    ConstraintError(k.Word() + " '" + name + "' not found")
  }

  /** Inserting the same middle part between a common prefix and suffix is injective. */
  lemma StripFrame(pre: string, a: string, b: string, suf: string)
    requires pre + a + suf == pre + b + suf
    ensures a == b
  {
    var s := pre + a + suf;
    assert |a| == |b|;
    assert a == s[|pre|..|pre| + |a|];
    assert b == (pre + b + suf)[|pre|..|pre| + |b|];
  }

  /** A collision message identifies which check fired (own or other namespace),
      the kind it names and the offending name: no two distinct collisions read alike. */
  lemma CollisionMessagesIdentify(k1: Kind, n1: string, k2: Kind, n2: string)
    ensures Exists(k1, n1) == Exists(k2, n2) ==> k1 == k2 && n1 == n2
    ensures OtherExists(k1, n1) == OtherExists(k2, n2) ==> k1 == k2 && n1 == n2
    ensures Exists(k1, n1) != OtherExists(k2, n2)
  {
    var e1, e2 := Exists(k1, n1).message, Exists(k2, n2).message;
    assert e1[0] == k1.Word()[0] && e2[0] == k2.Word()[0];
    if e1 == e2 {
      assert k1 == k2;
      StripFrame(k1.Word() + " '", n1, n2, "' exists");
    }
    var o1, o2 := OtherExists(k1, n1).message, OtherExists(k2, n2).message;
    assert o1[2] == k1.Word()[0] && o2[2] == k2.Word()[0];
    if o1 == o2 {
      assert k1 == k2;
      StripFrame("a " + k1.Word() + " '", n1, n2, "' exists");
    }
    assert o2[0] == 'a' != e1[0];
  }
}
