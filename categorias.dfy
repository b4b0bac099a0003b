/** The category controller: ids are checked for validity before any
    lookup, an update always writes the body's name and description, and
    the hosted image is replaced or destroyed with the category. */
module Categorias {
  import opened Wrappers
  import opened JsText
  import opened Media

  /** A stored category; any key may be missing in a stored document. */
  datatype Categoria = Categoria(nombre: Option<string>, descripcion: Option<string>, imagenURL: Option<string>)

  /** The document `createCategoria` hands to the save: the body's name and
      description, and its image URL with a missing or empty one read as "". */
  function NewCategoria(nombre: Option<string>, descripcion: Option<string>, imagenURL: Option<string>): (c: Categoria)
    ensures c.nombre == nombre && c.descripcion == descripcion
    ensures c.imagenURL == Some(if Truthy(imagenURL) then imagenURL.value else "")
  {
    Categoria(nombre, descripcion, Some(OrElse(imagenURL, "")))
  }

  /** The `updateData` object: `nombre` and `descripcion` are always keys,
      holding `undefined` when the body lacks them; `imagenURL` is a key
      only after an upload. */
  datatype CategoriaUpdate = CategoriaUpdate(nombre: Option<string>, descripcion: Option<string>, imagenURL: Option<string>)

  /** `findByIdAndUpdate` with `updateData`: a key holding `undefined` is
      dropped from the update, the others replace the stored values. */
  function Apply(c: Categoria, u: CategoriaUpdate): Categoria {
    Categoria(if u.nombre.Some? then u.nombre else c.nombre,
              if u.descripcion.Some? then u.descripcion else c.descripcion,
              if u.imagenURL.Some? then u.imagenURL else c.imagenURL)
  }

  /** The id of the stored image on the host, when the category has one. */
  function OldImageId(c: Categoria): (id: Option<string>)
    ensures id.Some? <==> Truthy(c.imagenURL)
    ensures id.Some? ==> id.value == DestroyId(CategoriasFolder, c.imagenURL.value)
  {
    if Truthy(c.imagenURL) then Some(DestroyId(CategoriasFolder, c.imagenURL.value)) else None
  }

  /** An image at `base/name.ext` is destroyed as `categorias/name`. */
  lemma OldImageIdOf(c: Categoria, base: string, name: string, ext: string)
    requires c.imagenURL == Some(base + "/" + name + "." + ext)
    requires '/' !in name && '.' !in name && '/' !in ext
    ensures OldImageId(c) == Some("categorias/" + name)
  {
    MediaIdOf(base, name, ext);
  }

  /** `updateCategoria`, with `isValidId` standing for the driver's
      `ObjectId.isValid`: 400 for an invalid id before any lookup, 404 for
      an unknown one; otherwise the body's name and description and, after
      a successful upload, the new image URL, the old image being destroyed
      when there was one. A failed upload is a 500 and writes nothing. */
  method UpdateCategoria(categorias: map<string, Categoria>, isValidId: string -> bool, id: string,
                         nombre: Option<string>, descripcion: Option<string>, upload: Upload)
    returns (status: int, destroyed: Option<string>, after: map<string, Categoria>)
    ensures status == 400 <==> !isValidId(id)
    ensures status == 404 <==> isValidId(id) && id !in categorias
    ensures status == 500 <==> isValidId(id) && id in categorias && upload.UploadFailed?
    ensures status == 200 <==> isValidId(id) && id in categorias && !upload.UploadFailed?
    ensures status != 200 ==> after == categorias && destroyed == None
    ensures status == 200 ==>
      id in categorias
      && after == categorias[id := Apply(categorias[id], CategoriaUpdate(nombre, descripcion,
                                          if upload.Uploaded? then Some(upload.url) else None))]
      && destroyed == (if upload.Uploaded? then OldImageId(categorias[id]) else None)
  {
    if !isValidId(id) {
      return 400, None, categorias;
    }
    if id !in categorias {
      return 404, None, categorias;
    }
    var existing := categorias[id];
    var updateData := CategoriaUpdate(nombre, descripcion, None);
    destroyed := None;
    match upload {
      case UploadFailed =>
        return 500, None, categorias;
      case Uploaded(url, _) =>
        destroyed := OldImageId(existing);
        updateData := updateData.(imagenURL := Some(url));
      case NoFile =>
    }
    status := 200;
    after := categorias[id := Apply(existing, updateData)];
  }

  /** Without a file the image URL stays, whatever the body holds. */
  lemma UpdateWithoutFileKeepsImage(c: Categoria, nombre: Option<string>, descripcion: Option<string>)
    ensures Apply(c, CategoriaUpdate(nombre, descripcion, None)).imagenURL == c.imagenURL
  {
  }

  /** `deleteCategoria`: 400 for an invalid id, 404 for an unknown one;
      otherwise the category is removed and its image, if any, destroyed. */
  function DeleteCategoria(categorias: map<string, Categoria>, isValidId: string -> bool, id: string)
    : (out: (int, Option<string>, map<string, Categoria>))
    ensures out.0 == 400 <==> !isValidId(id)
    ensures out.0 == 404 <==> isValidId(id) && id !in categorias
    ensures out.0 == 200 <==> isValidId(id) && id in categorias
    ensures out.0 == 200 ==> out.2 == categorias - {id} && out.1 == OldImageId(categorias[id])
    ensures out.0 != 200 ==> out.2 == categorias && out.1 == None
  {
    if !isValidId(id) then (400, None, categorias)
    else if id !in categorias then (404, None, categorias)
    else (200, OldImageId(categorias[id]), categorias - {id})
  }
}
