/** The photo controller: the gallery photos keyed by id, created only with
    an uploaded image, updated with the truthy text fields and a replaced
    image, and deleted together with their hosted image. */
module Fotos {
  import opened Wrappers
  import opened JsText
  import opened Media

  /** A stored photo; any key may be missing in a stored document. */
  datatype Foto = Foto(url: Option<string>, titulo: Option<string>, descripcion: Option<string>)

  /** `createFoto`: 400 without a file, 500 when the upload fails, otherwise
      201 and the photo stored under `newId`, with a missing or empty title
      read as "Sin título" and a missing description as "". */
  function CreateFoto(fotos: map<string, Foto>, newId: string, upload: Upload,
                      titulo: Option<string>, descripcion: Option<string>): (out: (int, map<string, Foto>))
    requires newId !in fotos
    ensures out.0 == 400 <==> upload.NoFile?
    ensures out.0 == 500 <==> upload.UploadFailed?
    ensures out.0 == 201 <==> upload.Uploaded?
    ensures out.0 != 201 ==> out.1 == fotos
    ensures out.0 == 201 ==> forall k :: k in fotos ==> k in out.1 && out.1[k] == fotos[k]
    ensures out.0 == 201 ==>
      (upload.Uploaded? && out.1.Keys == fotos.Keys + {newId}
       && out.1[newId].url == Some(upload.url)
       && out.1[newId].titulo == Some(if Truthy(titulo) then titulo.value else "Sin título")
       && out.1[newId].descripcion == Some(if Truthy(descripcion) then descripcion.value else ""))
  {
    match upload
    case NoFile => (400, fotos)
    case UploadFailed => (500, fotos)
    case Uploaded(url, _) =>
      (201, fotos[newId := Foto(Some(url), Some(OrElse(titulo, "Sin título")), Some(OrElse(descripcion, "")))])
  }

  /** The `updateData` object: an absent key is `None`. */
  datatype FotoUpdate = FotoUpdate(titulo: Option<string>, descripcion: Option<string>, url: Option<string>)

  /** `findByIdAndUpdate` with `updateData`: the keys present replace the stored ones. */
  function Apply(f: Foto, u: FotoUpdate): Foto {
    Foto(if u.url.Some? then u.url else f.url,
         if u.titulo.Some? then u.titulo else f.titulo,
         if u.descripcion.Some? then u.descripcion else f.descripcion)
  }

  /** An update without keys leaves the photo as it is. */
  lemma ApplyEmpty(f: Foto)
    ensures Apply(f, FotoUpdate(None, None, None)) == f
  {
  }

  /** `updateFoto`: 404 for an unknown id; otherwise the truthy title and
      description and, when a new image was uploaded, its URL; the old image
      is destroyed as `galeria/fotos/<id of its URL>`. A failed upload, or a
      stored photo without a URL whose id cannot be derived, is a 500 and
      nothing is written. */
  method UpdateFoto(fotos: map<string, Foto>, id: string, titulo: Option<string>, descripcion: Option<string>,
                    upload: Upload)
    returns (status: int, destroyed: Option<string>, after: map<string, Foto>)
    ensures status == 404 <==> id !in fotos
    ensures status != 200 ==> after == fotos && destroyed == None
    ensures id in fotos && upload.NoFile? ==> status == 200 && destroyed == None
    ensures id in fotos && upload.UploadFailed? ==> status == 500
    ensures id in fotos && upload.Uploaded? ==>
      status == (if fotos[id].url.Some? then 200 else 500)
      && (status == 200 ==> destroyed == Some(DestroyId(FotosFolder, fotos[id].url.value)))
    ensures status == 200 ==>
      after == fotos[id := Apply(fotos[id], FotoUpdate(IfTruthy(titulo), IfTruthy(descripcion),
                                                        if upload.Uploaded? then Some(upload.url) else None))]
  {
    if id !in fotos {
      return 404, None, fotos;
    }
    var existing := fotos[id];
    var updateData := FotoUpdate(None, None, None);
    if Truthy(titulo) {
      updateData := updateData.(titulo := titulo);
    }
    if Truthy(descripcion) {
      updateData := updateData.(descripcion := descripcion);
    }
    destroyed := None;
    match upload {
      case NoFile =>
      case UploadFailed =>
        return 500, None, fotos;
      case Uploaded(url, _) =>
        if existing.url.None? {
          return 500, None, fotos;
        }
        destroyed := Some(DestroyId(FotosFolder, existing.url.value));
        updateData := updateData.(url := Some(url));
    }
    status := 200;
    after := fotos[id := Apply(existing, updateData)];
  }

  /** An update with neither truthy text nor file leaves the stored photo as it is. */
  lemma UpdateWithNothingKeepsFoto(f: Foto, titulo: Option<string>, descripcion: Option<string>)
    requires !Truthy(titulo) && !Truthy(descripcion)
    ensures Apply(f, FotoUpdate(IfTruthy(titulo), IfTruthy(descripcion), None)) == f
  {
  }

  /** `deleteFoto`: 404 for an unknown id; otherwise the image id destroyed
      on the host and the collection without the photo. A photo without a
      URL is a 500 and stays stored. */
  function DeleteFoto(fotos: map<string, Foto>, id: string): (out: (int, Option<string>, map<string, Foto>))
    ensures out.0 == 404 <==> id !in fotos
    ensures out.0 == 200 <==> id in fotos && fotos[id].url.Some?
    ensures out.0 == 500 <==> id in fotos && fotos[id].url.None?
    ensures out.0 == 200 ==> out.2 == fotos - {id} && out.1 == Some(DestroyId(FotosFolder, fotos[id].url.value))
    ensures out.0 != 200 ==> out.2 == fotos && out.1 == None
  {
    if id !in fotos then (404, None, fotos)
    else match fotos[id].url
      case None => (500, None, fotos)
      case Some(url) => (200, Some(DestroyId(FotosFolder, url)), fotos - {id})
  }

  /** A photo stored at `base/name.ext` is destroyed as `galeria/fotos/name`. */
  lemma FotoDestroyIdOf(base: string, name: string, ext: string)
    requires '/' !in name && '.' !in name && '/' !in ext
    ensures DestroyId(FotosFolder, base + "/" + name + "." + ext) == "galeria/fotos/" + name
  {
    MediaIdOf(base, name, ext);
  }
}
