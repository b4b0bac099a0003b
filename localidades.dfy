/** The localities controller over the collection of localities, held as a
    table from id to locality. The name is required and the schema keeps
    it unique; the controller checks a clash before each write, and an
    update checks the clash before it looks for the locality. */
module Localidades {
  import opened Wrappers

  datatype Localidad = Localidad(nombre: string, descripcion: Option<string>)

  /** The controller's replies. `Invalid` is the 500 of a failed `required`
      validator on an empty name. */
  datatype Outcome = Created | Updated | Deleted | NameInUse | NotFound | Invalid

  function Status(o: Outcome): int {
    match o
    case Created => 201
    case Updated | Deleted => 200
    case NameInUse => 400
    case NotFound => 404
    case Invalid => 500
  }

  /** No two rows share a name. */
  predicate UniqueNames(rows: map<string, Localidad>) {
    forall a, b :: a in rows && b in rows && rows[a].nombre == rows[b].nombre ==> a == b
  }

  /** `Localidad.findOne({ nombre, _id: { $ne: except } })` finds a row. */
  predicate Clash(rows: map<string, Localidad>, nombre: string, except: Option<string>) {
    exists other :: other in rows && Some(other) != except && rows[other].nombre == nombre
  }

  /** Writing a row whose name no other row holds keeps names unique. */
  lemma WriteKeepsUniqueNames(rows: map<string, Localidad>, id: string, l: Localidad)
    requires UniqueNames(rows) && !Clash(rows, l.nombre, Some(id))
    ensures UniqueNames(rows[id := l])
  {
    var after := rows[id := l];
    forall a, b | a in after && b in after && after[a].nombre == after[b].nombre
      ensures a == b
    {
      if a != id {
        assert after[a] == rows[a] && Some(a) != Some(id);
      }
      if b != id {
        assert after[b] == rows[b] && Some(b) != Some(id);
      }
    }
  }

  class LocalidadTable {
    var rows: map<string, Localidad>

    predicate Valid()
      reads this
    {
      UniqueNames(rows)
    }

    constructor ()
      ensures rows == map[] && Valid()
    {
      rows := map[];
    }

    /** `createLocalidad`: 400 when a row has the name, leaving the table as
        it is; 500 for an empty name; otherwise the row is stored under `newId`. */
    method Create(newId: string, nombre: string, descripcion: Option<string>) returns (o: Outcome)
      requires Valid() && newId !in rows
      modifies this
      ensures Valid()
      ensures o == NameInUse <==> Clash(old(rows), nombre, None)
      ensures o == Invalid <==> !Clash(old(rows), nombre, None) && nombre == ""
      ensures o != NameInUse && o != Invalid ==> o == Created && rows == old(rows)[newId := Localidad(nombre, descripcion)]
      ensures o != Created ==> rows == old(rows)
    {
      if Clash(rows, nombre, None) {
        return NameInUse;
      }
      if nombre == "" {
        return Invalid;
      }
      assert !Clash(rows, nombre, Some(newId));
      WriteKeepsUniqueNames(rows, newId, Localidad(nombre, descripcion));
      rows := rows[newId := Localidad(nombre, descripcion)];
      o := Created;
    }

    /** `updateLocalidad`: 400 when another row has the name (checked
        first, so an unknown id with a taken name is a 400); 500 when the
        name is empty; 404 for an unknown id; otherwise `nombre` and
        `descripcion` of that one row are replaced (an absent description
        is not written). */
    method Update(id: string, nombre: string, descripcion: Option<string>) returns (o: Outcome)
      requires Valid()
      modifies this
      ensures Valid()
      ensures o == NameInUse <==> Clash(old(rows), nombre, Some(id))
      ensures o == Invalid <==> !Clash(old(rows), nombre, Some(id)) && nombre == ""
      ensures o == NotFound <==> !Clash(old(rows), nombre, Some(id)) && nombre != "" && id !in old(rows)
      ensures o == Updated <==> !Clash(old(rows), nombre, Some(id)) && nombre != "" && id in old(rows)
      ensures o != Updated ==> rows == old(rows)
      ensures o == Updated ==> id in old(rows) && rows == old(rows)[id := Localidad(nombre,
                                 if descripcion.Some? then descripcion else old(rows)[id].descripcion)]
    {
      if Clash(rows, nombre, Some(id)) {
        return NameInUse;
      }
      if nombre == "" {
        return Invalid;
      }
      if id !in rows {
        return NotFound;
      }
      var updated := Localidad(nombre, if descripcion.Some? then descripcion else rows[id].descripcion);
      WriteKeepsUniqueNames(rows, id, updated);
      rows := rows[id := updated];
      o := Updated;
    }

    /** `deleteLocalidad`: 404 for an unknown id, otherwise the row is removed. */
    method Delete(id: string) returns (o: Outcome)
      requires Valid()
      modifies this
      ensures Valid()
      ensures o == NotFound <==> id !in old(rows)
      ensures o != NotFound ==> o == Deleted && rows == old(rows) - {id}
      ensures o == NotFound ==> rows == old(rows)
    {
      if id !in rows {
        return NotFound;
      }
      rows := rows - {id};
      o := Deleted;
    }
  }

  /** The order of the update's checks: a taken name is refused even for an
      id no row has, where a free name gives 404. */
  lemma ClashBeforeExistence(rows: map<string, Localidad>, id: string, other: string, nombre: string)
    requires id !in rows && other in rows && rows[other].nombre == nombre
    ensures Clash(rows, nombre, Some(id))
  {
    assert Some(other) != Some(id);
  }
}
