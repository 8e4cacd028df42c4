# PetriNet structural core, in Dafny

This project models the structural layer of the Petri-net container `PetriNet` from
`snakes/nets.py`. A net keeps three name-keyed maps: places (`_place`), transitions
(`_trans`) and the combined index `_node`. It has a constructor and two guarded insertions,
`add_place` and `add_transition`.

Each insertion works in three steps:

1. It checks the node's name, first against its own namespace and then against the other
   one. A taken name raises a `ConstraintError` before anything changes.
2. It puts the node into its own map and into `_node`.
3. It calls `lock` four times on the node, with the net as owner: `name`, `net`, `pre` and
   `post`.

`add_transition` then appends the net's global `Evaluator` to its guard's parent scopes.

Files and modules:

- `errors.dfy`, module `Errors`: the `Option`, `Result` and `Outcome` wrappers, the two node
  kinds, and the exact `ConstraintError` messages. A lemma shows that a collision message
  identifies its kind, which check raised it, and the offending name.
- `node_table.dfy`, module `NodeTable`: the three maps as a value `Table`. It holds the
  net invariant `Valid`: no name is both a place and a transition, and `_node` is exactly
  the union of the two maps. `Add` is the check-then-insert both operations perform. `Run`
  applies any sequence of insertions, and two lemmas prove what such a sequence preserves.
- `collaborators.dfy`, module `Collaborators`: stand-ins for code that `nets.py` calls but
  that is not part of this model. These are `Node.lock`, `Evaluator.attach` and the guard
  `Expression` with its `globals` scope. What they do is assumed, not taken from
  `nets.py`. See "## Left out".
- `nets.dfy`, module `Nets`: the class `PetriNet` with the fields `name`, `place`, `trans`,
  `node`, `declare` and `globals`. Its constructor and its methods `AddPlace` and
  `AddTransition` change state in place. Their postconditions tie the new maps to
  `NodeTable.Add` applied to the old ones.
- `doctests.dfy`, module `Doctests`: the source's doctest scenarios and one
  cross-namespace collision scenario, verified using only the methods' contracts.

`Place` and `Transition` are one class, `Node`. A place has no guard (`guard == None`) and a
transition has one (`guard == Some(e)`). `PetriNet.Valid` requires every entry of `place` to
be a place and every entry of `trans` to be a transition.

Two points where a reader might expect more than the code does. The model follows the
code in both:

- Messages. The docstrings of `add_place` and `add_transition` (lines 54-55 and 87-88)
  mention only a collision in the node's own namespace. The code also rejects a name taken
  in the other namespace. It raises exactly "place '<n>' exists", "a transition '<n>' exists",
  "transition '<n>' exists" and "a place '<n>' exists", and those are the model's strings.
- Partial changes. One might expect a rejected insertion to change nothing. In the code the
  maps are updated before the four `lock` calls. So the model promises "nothing changed"
  only for the two collision errors. After a `lock` refusal, `AddPlace` and `AddTransition`
  state that the maps already hold the node, and which of the node's fields the earlier
  `lock` calls have already set. They claim no rollback.

## Model

| member | source | states |
|---|---|---|
| `Errors.CollisionMessagesIdentify` | snakes/nets.py:57-60 | No "<kind> '<n>' exists" message equals an "a <kind> '<n>' exists" message. Each of the two forms determines its kind and its name, so the error names the colliding node and the namespace it collides in. Symmetric at 90-93. |
| `NodeTable.Add` | snakes/nets.py:57-62 | An insertion fails exactly when the name is already a place or a transition. Under the invariant, that is exactly when the name is in the combined index. A name taken in the node's own namespace gives "<kind> '<n>' exists". A name taken only in the other namespace gives "a <other kind> '<n>' exists". On success, the own map and the combined index gain exactly `name ↦ n`, the other map is untouched, and the invariant is preserved. The same function with the transition kind is 90-95. |
| `NodeTable.RunKeepsValid` | snakes/nets.py:57-95 | For every sequence of `add_place`/`add_transition` calls (a rejected call leaves the table as it was), starting from a valid table: no name is both a place and a transition, the combined index is the union of the two maps, and the names are exactly the old names plus the requested ones. |
| `NodeTable.RunKeepsEntries` | snakes/nets.py:57-95 | No sequence of insertions removes or rebinds an entry. A name stays bound to the object first stored under it, in the namespace it was stored in. This is the doctest where a second `Place('p')` is rejected and the first one stays. |
| `NodeTable.AddThenFind` | snakes/nets.py:38-46 | The doctest round trip, using lookups assumed from the doctests. Before insertion, the name is not found ("<kind> '<n>' not found") and `has_*` is false. After a successful insertion, the lookup returns the very object inserted, and only in its own namespace. |
| `Collaborators.Node.Lock` | snakes/nets.py:63-66 | Assumed stand-in for `lock(field, owner, value)`. When another owner holds the field, the call is refused, naming the field and that owner, and the node is unchanged. Otherwise the field takes the value, the owner is recorded, and every other field is unchanged. |
| `Collaborators.Scope.Attach` | snakes/nets.py:100 | Assumed stand-in for `Evaluator.attach(parent)`: the parent is appended to the end of the scope's parent list. |
| `Nets.PetriNet.constructor` | snakes/nets.py:18-30 | A new net stores its name unchanged. Its place, transition and node maps are empty, its declaration list is empty, and it has a fresh global scope with no parents. The invariant holds. |
| `Nets.PetriNet.LockStructure` | snakes/nets.py:63-66 | The four `lock` calls, in order. They all succeed exactly when no field is held by another owner. Then the node's name is its old name, its net is this net, and its `pre` and `post` are empty maps, all four owned by this net. Otherwise the refusal returned is the one for the first field, in the order `name`, `net`, `pre`, `post`, that another owner holds, naming that owner (`FirstRefusal`), and the later calls are not made (`StoppedAt`): the fields before the refused one are set and locked to this net, the refused field and the later ones keep their old values, and the name is unchanged. |
| `Nets.PetriNet.AddPlace` | snakes/nets.py:35-66 | On a name collision, it returns that `ConstraintError`, and the net and the place are unchanged. Otherwise the maps become `NodeTable.Add` of the old maps, storing the very instance passed in. The place then ends up locked to this net exactly when none of its fields was held by another owner; otherwise the lock refusal for the first such field, in call order, is returned, and the place is left as `StoppedAt` that field describes. The invariant is preserved. No scope is touched: the method's frame is only the net and the place. |
| `Nets.PetriNet.AddTransition` | snakes/nets.py:70-100 | Like `AddPlace`, with the namespaces swapped. On a collision, the guard's scope is unchanged too. After all four locks succeed, the net's global scope has been appended once to the guard's parent list. After a lock refusal (the first in call order, with the node left as `StoppedAt` describes, as for `AddPlace`), the parent list is unchanged. |
| `Doctests.PlaceTwice` | snakes/nets.py:43-51 | Adding `Place('p')` twice to a new net: the first call returns normally, the second raises "place 'p' exists", and afterwards the net's places are exactly `'p' ↦` the first place, with no transitions. |
| `Doctests.TransitionTwice` | snakes/nets.py:78-84 | On a new net, `add_transition(t)` returns normally and the net then holds `t` itself (`transition('t') is t`, lines 15-16). A second transition `'t'` raises "transition 't' exists", and afterwards the net's transitions are exactly `'t' ↦ t`, with no places. |
| `Doctests.TransitionOverPlace` | snakes/nets.py:90-93 | After `add_place(Place('p'))` returns normally, a transition named `p` raises "a place 'p' exists". |

## Left out

- `Node.lock`, `Place`, `Transition`, `Evaluator`, `Expression`, `MultiSet` and
  `ConstraintError` are not part of this model. `Collaborators` stands in for them with
  only an owner record and field values, a parent list, and the guard's source text. The
  lock-refusal rule in `Collaborators.Node.Lock` is assumed: a field held by one owner refuses a
  lock by another. It is not a fact of `nets.py`.
- Accessors `place`, `transition`, `node`, `has_place`, `has_transition`: `nets.py` does
  not implement them. `NodeTable.Find` and `NodeTable.Has` are assumed map lookups, used
  only to state the doctest round trip. There is no lookup of the combined `_node` map.
- Guard evaluation and variable resolution through the scope chain: these run dynamic
  expression evaluation in code not shown. A `Scope` keeps only its parents, not its
  bindings.
- Tokens of places and place types: these are foreign collaborators. The constructors
  `Node.Place` and `Node.Transition` take only a name (and a guard).
- `_declare`: only its initial emptiness is modelled, plus the fact that insertions leave
  it alone. Nothing shown reads or writes it. A declaration is kept as opaque text.
- `repr` output in the doctests, such as `PetriNet('N')` and `Place('p', MultiSet([...]), tAll)`.
- Rollback after a `lock` refusal: the maps have already been updated at that point (lines
  61-62 and 94-95). The model states that they hold the node, and that the node keeps
  what the `lock` calls before the refusal set. Nothing is undone.
- Arc labels in `pre` and `post` are plain text. Only their emptiness at insertion matters.
