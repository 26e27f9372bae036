/**
 The model decoder (ifcopenshell's parsed file), reduced to the data the graph
 builder reads from it: the entity instances with their positional attributes
 and inverse roles, the id table behind `by_id`, the enumeration order of
 `entity_names()` and the type list of `types_with_super()`.
 */
module IfcFile {

  datatype Option<+T> = None | Some(value: T)

  /** The decoder's own handle on one entity instance (an inline instance has no id). */
  type Handle = nat

  /** A raw attribute value, kept opaque: its STEP text, or `$` when unset. */
  datatype RawValue = Unset | Raw(text: string)

  /**
   One positional attribute, tagged once with the kind `get_argument_type`
   reports for it. `Plain` stands for every kind other than
   'ENTITY INSTANCE', 'AGGREGATE OF ENTITY INSTANCE' and 'DERIVED'.
   */
  datatype Arg =
    | Instance(target: Option<Handle>)
    | InstanceAggregate(members: Option<seq<Handle>>)
    | Derived
    | Plain(value: RawValue)

  datatype Field = Field(name: string, arg: Arg)

  /** One inverse attribute: its role name and the instances `get_inverse` yields. */
  datatype InverseRole = InverseRole(role: string, members: seq<Handle>)

  /**
   An entity instance. `id` is the STEP id (0 for an instance that has none);
   `satisfies` is the set of type names `is_a(name)` answers true for.
   */
  datatype Entity = Entity(
    id: nat,
    typeName: string,
    satisfies: set<string>,
    fields: seq<Field>,
    inverses: seq<InverseRole>)

  /** `entity.is_a(typeName)` */
  predicate IsA(e: Entity, typeName: string) {
    typeName in e.satisfies
  }

  datatype Decoder = Decoder(
    store: map<Handle, Entity>,
    byId: map<nat, Handle>,
    entityNames: seq<nat>,
    typesWithSuper: seq<string>)
  {
    /** Every instance an attribute of kind entity or aggregate-of-entity points at exists. */
    predicate ArgResolves(a: Arg) {
      match a
      case Instance(Some(t)) => t in store
      case InstanceAggregate(Some(ms)) => forall m :: m in ms ==> m in store
      case _ => true
    }

    predicate FieldsResolve(fields: seq<Field>) {
      forall i :: 0 <= i < |fields| ==> ArgResolves(fields[i].arg)
    }

    /** `by_id(w.id())` succeeds for every member of every inverse role. */
    predicate InversesResolve(roles: seq<InverseRole>) {
      forall i :: 0 <= i < |roles| ==> MembersResolve(roles[i].members)
    }

    predicate MembersResolve(ws: seq<Handle>) {
      forall w :: w in ws ==> w in store && store[w].id in byId && byId[store[w].id] in store
    }

    predicate Resolves(e: Entity) {
      FieldsResolve(e.fields) && InversesResolve(e.inverses)
    }

    /** The instance is the one `by_id` returns for its id (trivially so when it has none). */
    predicate InFile(e: Entity)
      requires forall x :: x in byId ==> byId[x] in store
    {
      e.id != 0 ==> e.id in byId && store[byId[e.id]] == e
    }

    /**
     What a parsed STEP file guarantees: ids are nonzero and name exactly one
     instance, every id `entity_names()` lists can be looked up, and every
     reference and inverse member resolves.
     */
    predicate Valid() {
      && (forall x :: x in byId ==> x != 0 && byId[x] in store && store[byId[x]].id == x)
      && (forall h :: h in store ==> InFile(store[h]))
      && (forall x :: x in entityNames ==> x in byId)
      && (forall h :: h in store ==> Resolves(store[h]))
    }

    /** `by_id(id)` for an id the table knows. */
    function ById(x: nat): (e: Entity)
      requires Valid() && x in byId
      ensures e.id == x && Resolves(e)
    {
      store[byId[x]]
    }
  }
}
