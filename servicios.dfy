/** The service controller over the collection of services, held as a
    table from id to service: creation refuses a taken name, updates check
    existence before the name clash, and the hosted image of a service is
    destroyed when it is replaced or the service is deleted. */
module Servicios {
  import opened Wrappers
  import opened JsText
  import opened Media

  /** A stored service; `imagen` is "" when it was created without a file. */
  datatype Servicio = Servicio(nombre: string, titulo: Option<string>, descripcion: Option<string>, imagen: string)

  /** The `updateData` object: an absent key is `None`. */
  datatype ServicioUpdate = ServicioUpdate(nombre: Option<string>, titulo: Option<string>,
                                           descripcion: Option<string>, imagen: Option<string>)

  /** `findByIdAndUpdate` with `updateData`: the keys present replace the stored ones. */
  function Apply(s: Servicio, u: ServicioUpdate): Servicio {
    Servicio(u.nombre.GetOr(s.nombre), if u.titulo.Some? then u.titulo else s.titulo,
             if u.descripcion.Some? then u.descripcion else s.descripcion, u.imagen.GetOr(s.imagen))
  }

  /** The id of a stored image on the host, when the service has one. */
  function OldImageId(s: Servicio): (id: Option<string>)
    ensures id.Some? <==> s.imagen != ""
    ensures id.Some? ==> id.value == DestroyId(ServiciosFolder, s.imagen)
  {
    if s.imagen != "" then Some(DestroyId(ServiciosFolder, s.imagen)) else None
  }

  /** An image at `base/name.ext` is destroyed as `servicios/name`. */
  lemma OldImageIdOf(s: Servicio, base: string, name: string, ext: string)
    requires s.imagen == base + "/" + name + "." + ext
    requires '/' !in name && '.' !in name && '/' !in ext
    ensures OldImageId(s) == Some("servicios/" + name)
  {
    MediaIdOf(base, name, ext);
  }

  /** The payload `updateServicio` builds: the truthy text fields, and the
      new image when one was uploaded. */
  function UpdatePayload(nombre: string, titulo: Option<string>, descripcion: Option<string>, upload: Upload)
    : (u: ServicioUpdate)
    ensures u.nombre.Some? <==> nombre != ""
    ensures u.nombre.Some? ==> u.nombre.value == nombre
    ensures u.titulo == IfTruthy(titulo) && u.descripcion == IfTruthy(descripcion)
    ensures u.imagen.Some? <==> upload.Uploaded?
    ensures u.imagen.Some? ==> u.imagen.value == upload.url
  {
    ServicioUpdate(IfTruthy(Some(nombre)), IfTruthy(titulo), IfTruthy(descripcion),
                   if upload.Uploaded? then Some(upload.url) else None)
  }

  class ServicioTable {
    var rows: map<string, Servicio>

    /** No two services share a name. */
    predicate Valid()
      reads this
    {
      forall a, b :: a in rows && b in rows && rows[a].nombre == rows[b].nombre ==> a == b
    }

    /** `Servicio.findOne({ nombre, _id: { $ne: id } })` finds a service. */
    predicate NameTaken(nombre: string, except: Option<string>)
      reads this
    {
      exists other :: other in rows && Some(other) != except && rows[other].nombre == nombre
    }

    constructor ()
      ensures rows == map[] && Valid()
    {
      rows := map[];
    }

    /** `createServicio`: 400 when the name is taken; 500 when the upload
        fails; otherwise 201 and the service stored under `newId`, with
        `imagen` the uploaded URL or "". */
    method Create(newId: string, nombre: string, titulo: Option<string>, descripcion: Option<string>, upload: Upload)
      returns (status: int)
      requires Valid() && newId !in rows
      modifies this
      ensures Valid()
      ensures status == 400 <==> old(NameTaken(nombre, None))
      ensures status != 201 ==> rows == old(rows)
      ensures status == 500 <==> !old(NameTaken(nombre, None)) && upload.UploadFailed?
      ensures status == 201 <==> !old(NameTaken(nombre, None)) && !upload.UploadFailed?
      ensures status == 201 ==>
        rows == old(rows)[newId := Servicio(nombre, titulo, descripcion, if upload.Uploaded? then upload.url else "")]
    {
      if NameTaken(nombre, None) {
        return 400;
      }
      var imagenUrl := "";
      match upload {
        case UploadFailed =>
          return 500;
        case Uploaded(url, _) =>
          imagenUrl := url;
        case NoFile =>
      }
      WriteKeepsNamesUnique(rows, newId, Servicio(nombre, titulo, descripcion, imagenUrl));
      rows := rows[newId := Servicio(nombre, titulo, descripcion, imagenUrl)];
      status := 201;
    }

    /** `updateServicio`: 404 for an unknown id, then 400 when another
        service has the name, then the payload; with a file, a failed upload
        is a 500, and the old image, if any, is destroyed. */
    method Update(id: string, nombre: string, titulo: Option<string>, descripcion: Option<string>, upload: Upload)
      returns (status: int, destroyed: Option<string>)
      requires Valid()
      modifies this
      ensures Valid()
      ensures status == 404 <==> id !in old(rows)
      ensures status == 400 <==> id in old(rows) && old(NameTaken(nombre, Some(id)))
      ensures status == 500 <==> id in old(rows) && !old(NameTaken(nombre, Some(id))) && upload.UploadFailed?
      ensures status == 200 <==> id in old(rows) && !old(NameTaken(nombre, Some(id))) && !upload.UploadFailed?
      ensures status != 200 ==> rows == old(rows) && destroyed == None
      ensures status == 200 ==>
        rows == old(rows)[id := Apply(old(rows)[id], UpdatePayload(nombre, titulo, descripcion, upload))]
        && destroyed == (if upload.Uploaded? then OldImageId(old(rows)[id]) else None)
    {
      if id !in rows {
        return 404, None;
      }
      var existing := rows[id];
      if NameTaken(nombre, Some(id)) {
        return 400, None;
      }
      var updateData := ServicioUpdate(None, None, None, None);
      if nombre != "" {
        updateData := updateData.(nombre := Some(nombre));
      }
      if Truthy(titulo) {
        updateData := updateData.(titulo := titulo);
      }
      if Truthy(descripcion) {
        updateData := updateData.(descripcion := descripcion);
      }
      destroyed := None;
      match upload {
        case UploadFailed =>
          return 500, None;
        case Uploaded(url, _) =>
          destroyed := OldImageId(existing);
          updateData := updateData.(imagen := Some(url));
        case NoFile =>
      }
      var updated := Apply(existing, updateData);
      WriteKeepsNamesUnique(rows, id, updated);
      rows := rows[id := updated];
      status := 200;
    }

    /** `deleteServicio`: 404 for an unknown id; otherwise the service is
        removed and its image, if any, destroyed. */
    method Delete(id: string) returns (status: int, destroyed: Option<string>)
      requires Valid()
      modifies this
      ensures Valid()
      ensures status == 404 <==> id !in old(rows)
      ensures status == 200 <==> id in old(rows)
      ensures status == 404 ==> rows == old(rows) && destroyed == None
      ensures status == 200 ==> rows == old(rows) - {id} && destroyed == OldImageId(old(rows)[id])
    {
      if id !in rows {
        return 404, None;
      }
      destroyed := OldImageId(rows[id]);
      rows := rows - {id};
      status := 200;
    }
  }

  /** A name held by no service can be given to any one of them: writing a
      service whose name no other row holds keeps names unique. */
  lemma WriteKeepsNamesUnique(rows: map<string, Servicio>, id: string, s: Servicio)
    requires forall a, b :: a in rows && b in rows && rows[a].nombre == rows[b].nombre ==> a == b
    requires forall other :: other in rows && other != id ==> rows[other].nombre != s.nombre
    ensures var after := rows[id := s];
      forall a, b :: a in after && b in after && after[a].nombre == after[b].nombre ==> a == b
  {
  }
}
