/** The Petri-net container `PetriNet` of `snakes/nets.py`: its constructor and
    the two guarded insertions `add_place` and `add_transition`. */
module Nets {
  import opened Errors
  import opened Collaborators
  import NodeTable

  /** What an insertion can raise: a name collision, checked before anything
      changes, or a refusal from `lock`, which comes after the maps were updated. */
  datatype NetError = Collision(error: ConstraintError) | Locked(refusal: LockError)

  /** A declaration pending in `_declare`; its syntax belongs to a collaborator. */
  type Declaration = string

  class PetriNet {
    var name: string
    var place: map<string, Node>
    var trans: map<string, Node>
    var node: map<string, Node>
    var declare: seq<Declaration>
    const globals: Scope

    /** The net's three maps as a value. */
    ghost function Table(): NodeTable.Table<Node>
      reads this
    {
      NodeTable.Table(place, trans, node)
    }

    /** The structural invariant, and every place is a place and every
        transition a transition. */
    ghost predicate Valid()
      reads this
    {
      && NodeTable.Valid(Table())
      && (forall p :: p in place ==> place[p].guard.None?)
      && (forall t :: t in trans ==> trans[t].guard.Some?)
    }

    /** `PetriNet(name)`: empty maps, no declarations, a fresh global scope. */
    constructor (name: string)
      ensures this.name == name
      ensures place == map[] && trans == map[] && node == map[] && declare == []
      ensures fresh(globals) && globals.parents == []
      ensures Valid()
    {
      this.name := name;
      trans, place, node := map[], map[], map[];
      declare := [];
      globals := new Scope();
    }

    /** Node `n` has been attached to this net under `nm`: its name, net and
        adjacency maps are set and locked with this net as owner. */
    ghost predicate AttachedHere(n: Node, nm: string)
      reads this, n
    {
      && n.name == nm && n.net == Some(this as object) && n.pre == map[] && n.post == map[]
      && n.OwnedBy(NameField, this) && n.OwnedBy(NetField, this)
      && n.OwnedBy(PreField, this) && n.OwnedBy(PostField, this)
    }

    /** The refusal the four `lock` calls meet first, taking the fields in the
        order `name`, `net`, `pre`, `post`: the first held by another owner. */
    ghost function FirstRefusal(n: Node): Option<LockError>
      reads n
    {
      if n.LockedByOther(NameField, this) then Some(LockError(NameField, n.owners[NameField]))
      else if n.LockedByOther(NetField, this) then Some(LockError(NetField, n.owners[NetField]))
      else if n.LockedByOther(PreField, this) then Some(LockError(PreField, n.owners[PreField]))
      else if n.LockedByOther(PostField, this) then Some(LockError(PostField, n.owners[PostField]))
      else None
    }

    /** The node as the four `lock` calls leave it when the call for field `f`
        is refused: the calls before it have locked their fields to this net,
        and the refused field and the later ones are as they were. */
    twostate predicate StoppedAt(n: Node, f: Field)
      reads this, n
    {
      && n.name == old(n.name)
      && n.net == (if f == NameField || f == NetField then old(n.net) else Some(this as object))
      && n.pre == (if f == PostField then map[] else old(n.pre))
      && n.post == old(n.post)
      && n.owners == match f
           case NameField => old(n.owners)
           case NetField => old(n.owners)[NameField := this as object]
           case PreField => old(n.owners)[NameField := this as object][NetField := this as object]
           case PostField =>
             old(n.owners)[NameField := this as object][NetField := this as object][PreField := this as object]
    }

    /** The four `lock` calls that follow a successful insertion, in order;
        the first refusal is raised and the remaining calls are not made. */
    method LockStructure(n: Node) returns (r: Outcome<NetError>)
      modifies n
      ensures r.Pass? <==> old(n.LockableBy(this))
      ensures r.Pass? ==> AttachedHere(n, old(n.name))
      ensures old(FirstRefusal(n)).None? <==> r.Pass?
      ensures old(FirstRefusal(n)).Some? ==>
        r == Fail(Locked(old(FirstRefusal(n)).value)) && StoppedAt(n, old(FirstRefusal(n)).value.field)
    {
      var o := n.Lock(NameField, this, NameValue(n.name));
      if o.Fail? { return Fail(Locked(o.error)); }
      assert n.Value(NetField) == old(n.Value(NetField));
      assert n.Value(PreField) == old(n.Value(PreField));
      assert n.Value(PostField) == old(n.Value(PostField));
      o := n.Lock(NetField, this, NetValue(Some(this)));
      if o.Fail? { return Fail(Locked(o.error)); }
      assert n.Value(PreField) == old(n.Value(PreField));
      assert n.Value(PostField) == old(n.Value(PostField));
      o := n.Lock(PreField, this, ArcsValue(map[]));
      if o.Fail? { return Fail(Locked(o.error)); }
      assert n.Value(PostField) == old(n.Value(PostField));
      o := n.Lock(PostField, this, ArcsValue(map[]));
      if o.Fail? { return Fail(Locked(o.error)); }
      r := Pass;
    }

    /** `add_place(p)`. */
    method AddPlace(p: Node) returns (r: Outcome<NetError>)
      requires Valid() && p.guard.None?
      modifies this, p
      ensures Valid() && name == old(name) && declare == old(declare)
      ensures var want := NodeTable.Add(old(Table()), PlaceKind, old(p.name), p);
        && (want.Failure? ==> r == Fail(Collision(want.error)) && unchanged(this, p))
        && (want.Success? ==>
              && Table() == want.value
              && (r.Pass? <==> old(p.LockableBy(this)))
              && (r.Pass? ==> AttachedHere(p, old(p.name)))
              && (r.Fail? ==>
                    r == Fail(Locked(old(FirstRefusal(p)).value))
                    && StoppedAt(p, old(FirstRefusal(p)).value.field)))
    {
      if p.name in place {
        return Fail(Collision(Exists(PlaceKind, p.name)));
      } else if p.name in trans {
        return Fail(Collision(OtherExists(TransitionKind, p.name)));
      }
      ghost var want := NodeTable.Add(Table(), PlaceKind, p.name, p);
      place := place[p.name := p];
      node := node[p.name := p];
      assert Table() == want.value;
      r := LockStructure(p);
    }

    /** `add_transition(t)`; on success the net's global scope is appended to the
        guard's parents, after the locks. */
    method AddTransition(t: Node) returns (r: Outcome<NetError>)
      requires Valid() && t.guard.Some?
      modifies this, t, t.guard.value.globals
      ensures Valid() && name == old(name) && declare == old(declare)
      ensures var want := NodeTable.Add(old(Table()), TransitionKind, old(t.name), t);
        var g := t.guard.value.globals;
        && (want.Failure? ==> r == Fail(Collision(want.error)) && unchanged(this, t, g))
        && (want.Success? ==>
              && Table() == want.value
              && (r.Pass? <==> old(t.LockableBy(this)))
              && (r.Pass? ==> AttachedHere(t, old(t.name)) && g.parents == old(g.parents) + [globals])
              && (r.Fail? ==>
                    r == Fail(Locked(old(FirstRefusal(t)).value))
                    && StoppedAt(t, old(FirstRefusal(t)).value.field)
                    && g.parents == old(g.parents)))
    {
      if t.name in trans {
        return Fail(Collision(Exists(TransitionKind, t.name)));
      } else if t.name in place {
        return Fail(Collision(OtherExists(PlaceKind, t.name)));
      }
      ghost var want := NodeTable.Add(Table(), TransitionKind, t.name, t);
      trans := trans[t.name := t];
      node := node[t.name := t];
      assert Table() == want.value;
      r := LockStructure(t);
      if r.Pass? {
        t.guard.value.globals.Attach(globals);
      }
    }
  }
}
