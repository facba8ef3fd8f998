/**
 * Permission descriptions: the set the service keeps of descriptions that
 * plugins register, and the merged view that adds a placeholder for every
 * permission the permission vault knows about.
 *
 * Two descriptions are taken to be equal when their permission ids are
 * equal, so adding a description to a set that already holds one with the
 * same id leaves the set as it was, and `contains` asks for the id.
 */
module Descriptions {

  datatype Option<T> = None | Some(value: T)

  /** A permission description: its permission id, its text and the plugin that owns it. */
  datatype Description = Description(id: string, text: Option<string>, owner: Option<string>)

  /** The description synthesised for a permission known only from the vault: no text, no owner. */
  function Placeholder(permission: string): (d: Description)
    ensures d.id == permission
    ensures d.text == None && d.owner == None
  {
    Description(permission, None, None)
  }

  /** Some description in `descs` has permission id `id` (the id-based `contains`). */
  predicate HasId(descs: set<Description>, id: string) {
    exists d :: d in descs && d.id == id
  }

  /** No two descriptions in `descs` share an id: what an id-keyed set always is. */
  ghost predicate UniqueIds(descs: set<Description>) {
    forall d, e :: d in descs && e in descs && d.id == e.id ==> d == e
  }

  /**
   * `permissionDescriptions.add(d)`: the set gains `d` unless it already
   * holds a description with the same id, which is then kept.
   */
  function Register(descs: set<Description>, d: Description): (r: set<Description>)
    ensures descs <= r
    ensures HasId(r, d.id)
    ensures HasId(descs, d.id) ==> r == descs
    ensures !HasId(descs, d.id) ==> r - descs == {d}
    ensures UniqueIds(descs) ==> UniqueIds(r)
  {
    if HasId(descs, d.id) then descs else descs + {d}
  }

  /** The permissions of `known` that no description in `registered` covers. */
  function Uncovered(registered: set<Description>, known: set<string>): set<string> {
    set p | p in known && !HasId(registered, p)
  }

  /**
   * `getDescriptions()`: the registered descriptions, plus a placeholder for
   * each known permission that no registered description covers.
   */
  function Merged(registered: set<Description>, known: set<string>): set<Description> {
    registered + set p | p in Uncovered(registered, known) :: Placeholder(p)
  }

  /**
   * The merged view holds every registered description, covers every known
   * permission, and holds nothing else than registered descriptions and
   * placeholders for permissions that no registered description covers.
   */
  lemma MergedContents(registered: set<Description>, known: set<string>)
    ensures registered <= Merged(registered, known)
    ensures forall p :: p in known ==> HasId(Merged(registered, known), p)
    ensures forall d :: d in Merged(registered, known) ==>
      d in registered || (d.id in known && !HasId(registered, d.id) && d == Placeholder(d.id))
  {
    var m := Merged(registered, known);
    forall p | p in known ensures HasId(m, p) {
      if !HasId(registered, p) {
        assert Placeholder(p) in m;
      }
    }
  }

  /**
   * Registered descriptions are never replaced: whenever the merged view
   * holds a description with the id of a registered one, it is that
   * registered one. Ids stay unique.
   */
  lemma MergedKeepsRegistered(registered: set<Description>, known: set<string>)
    requires UniqueIds(registered)
    ensures forall d, e :: d in registered && e in Merged(registered, known) && e.id == d.id ==> e == d
    ensures UniqueIds(Merged(registered, known))
  {
    MergedContents(registered, known);
  }
}
