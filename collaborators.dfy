/** Minimal stand-ins for the collaborators that `PetriNet` calls but whose code
    is not part of this model: the node classes `Place` and `Transition` with
    their `lock` method, the guard `Expression` and its `Evaluator` scope.
    They record only what the net's operations rely on. */
module Collaborators {
  import opened Errors

  /** Arc annotations are foreign; only the adjacency maps' contents matter here. */
  type Label = string

  /** The node fields the net locks. */
  datatype Field = NameField | NetField | PreField | PostField

  /** A value stored in a lockable field. */
  datatype FieldValue =
    | NameValue(name: string)
    | NetValue(net: Option<object>)
    | ArcsValue(arcs: map<string, Label>)

  /** Which values fit which field. */
  predicate Fits(f: Field, v: FieldValue) {
    match f
    case NameField => v.NameValue?
    case NetField => v.NetValue?
    case PreField => v.ArcsValue?
    case PostField => v.ArcsValue?
  }

  /** Refusal of a lock request on a field already locked by another owner,
      naming the field and that owner. */
  datatype LockError = LockError(field: Field, owner: object)

  /** An `Evaluator`: only its ordered list of parent scopes is modelled. */
  class Scope {
    var parents: seq<Scope>

    constructor ()
      ensures parents == []
    {
      parents := [];
    }

    /** `attach(parent)`: the parent is consulted after all earlier ones. */
    method Attach(parent: Scope)
      modifies this
      ensures parents == old(parents) + [parent]
    {
      parents := parents + [parent];
    }
  }

  /** A guard `Expression`: its source text and its own scope `globals`. */
  class Expression {
    const text: string
    const globals: Scope

    constructor (text: string)
      ensures this.text == text && fresh(globals) && globals.parents == []
    {
      this.text := text;
      globals := new Scope();
    }
  }

  /** A `Place` (no guard) or a `Transition` (with its guard). */
  class Node {
    var name: string
    var net: Option<object>
    var pre: map<string, Label>
    var post: map<string, Label>
    /** The owner recorded by `lock` for each locked field. */
    var owners: map<Field, object>
    const guard: Option<Expression>

    constructor Place(name: string)
      ensures this.name == name && net == None && pre == map[] && post == map[]
      ensures owners == map[] && guard == None
    {
      this.name := name;
      net, pre, post, owners := None, map[], map[], map[];
      guard := None;
    }

    constructor Transition(name: string, guard: Expression)
      ensures this.name == name && net == None && pre == map[] && post == map[]
      ensures owners == map[] && this.guard == Some(guard)
    {
      this.name := name;
      net, pre, post, owners := None, map[], map[], map[];
      this.guard := Some(guard);
    }

    function Value(f: Field): (v: FieldValue)
      reads this
      ensures Fits(f, v)
    {
      match f
      case NameField => NameValue(name)
      case NetField => NetValue(net)
      case PreField => ArcsValue(pre)
      case PostField => ArcsValue(post)
    }

    predicate LockedByOther(f: Field, owner: object)
      reads this
    {
      f in owners && owners[f] != owner
    }

    predicate OwnedBy(f: Field, owner: object)
      reads this
    {
      f in owners && owners[f] == owner
    }

    /** No field the net locks is held by an owner other than `owner`. */
    predicate LockableBy(owner: object)
      reads this
    {
      && !LockedByOther(NameField, owner) && !LockedByOther(NetField, owner)
      && !LockedByOther(PreField, owner) && !LockedByOther(PostField, owner)
    }

    /** `lock(field, owner, value)`: refused when another owner holds the field;
        otherwise the field takes the value and the owner is recorded. */
    method Lock(f: Field, owner: object, value: FieldValue) returns (r: Outcome<LockError>)
      requires Fits(f, value)
      modifies this
      ensures old(LockedByOther(f, owner)) ==> r == Fail(LockError(f, old(owners[f]))) && unchanged(this)
      ensures !old(LockedByOther(f, owner)) ==>
        && r == Pass
        && owners == old(owners)[f := owner]
        && Value(f) == value
        && forall g :: g != f ==> Value(g) == old(Value(g))
    {
      if f in owners && owners[f] != owner {
        return Fail(LockError(f, owners[f]));
      }
      owners := owners[f := owner];
      match f {
        case NameField => name := value.name;
        case NetField => net := value.net;
        case PreField => pre := value.arcs;
        case PostField => post := value.arcs;
      }
      r := Pass;
    }
  }
}
