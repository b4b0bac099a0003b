/** The product controller: listing products, creating one after its size
    list has been normalised and checked against the stored sizes, and
    deleting one with its hosted image. */
module Productos {
  import opened Wrappers
  import opened JsText
  import opened Media

  /** A value of the request body: absent, a string, an array, or any other
      value (a number, a boolean, `null`, an object), of which only the
      truthiness matters here. */
  datatype BodyValue = Undefined | Str(s: string) | List(items: seq<BodyValue>) | Other(truthy: bool)

  predicate IsTruthy(v: BodyValue) {
    match v
    case Undefined => false
    case Str(s) => s != ""
    case List(_) => true
    case Other(t) => t
  }

  // ---------------------------------------------------------------------------
  // Size list

  /** The size list `createProducto` derives from `tallasDisponibles`: a
      string, even the empty one, is wrapped; an array is kept; any other
      value is wrapped when truthy and dropped when falsy. */
  function TallasList(v: BodyValue): seq<BodyValue> {
    match v
    case Str(_) => [v]
    case List(items) => items
    case _ => if IsTruthy(v) then [v] else []
  }

  /** Only an array can give anything but at most one entry, and a value
      that is not an array is kept exactly when it is a string or truthy. */
  lemma TallasListShape(v: BodyValue)
    ensures !v.List? ==> TallasList(v) == (if v.Str? || IsTruthy(v) then [v] else [])
    ensures v.List? ==> TallasList(v) == v.items
    ensures TallasList(Str("")) == [Str("")]
  {
  }

  /** Normalising the normalised list changes nothing. */
  lemma TallasListIdempotent(v: BodyValue)
    ensures TallasList(List(TallasList(v))) == TallasList(v)
  {
  }

  /** An entry names a stored size when it is a string equal to a size's
      id (`talla._id.toString() === id`). */
  predicate Names(x: BodyValue, ids: set<string>) {
    x.Str? && x.s in ids
  }

  /** `Talla.find({ _id: { $in: list } })`: each stored size named in the
      list, once. */
  function Found(tallas: set<string>, list: seq<BodyValue>): set<string> {
    set t | t in tallas && Str(t) in list
  }

  /** `list.filter(id => !found.some(...))`: the entries naming no found
      size, in order and with repeats. */
  function InvalidIds(list: seq<BodyValue>, found: set<string>): (r: seq<BodyValue>)
    ensures |r| <= |list|
    ensures forall x :: x in r <==> x in list && !Names(x, found)
  {
    if list == [] then []
    else
      var rest := InvalidIds(list[1..], found);
      assert forall x :: x in list <==> x == list[0] || x in list[1..];
      if Names(list[0], found) then rest else [list[0]] + rest
  }

  /** The filter keeps order: it distributes over concatenation. */
  lemma {:induction false} InvalidIdsAppend(a: seq<BodyValue>, b: seq<BodyValue>, found: set<string>)
    ensures InvalidIds(a + b, found) == InvalidIds(a, found) + InvalidIds(b, found)
  {
    if a == [] {
      assert a + b == b;
    } else {
      assert (a + b)[0] == a[0];
      assert (a + b)[1..] == a[1..] + b;
      InvalidIdsAppend(a[1..], b, found);
    }
  }

  /** The existence check: `None` when the list passes, otherwise the
      invalid ids reported with the 400. An empty list is not checked. */
  function CheckTallas(tallas: set<string>, list: seq<BodyValue>): Option<seq<BodyValue>> {
    if |list| > 0 && |Found(tallas, list)| != |list| then Some(InvalidIds(list, Found(tallas, list)))
    else None
  }

  predicate AllNamed(list: seq<BodyValue>, tallas: set<string>) {
    forall i :: 0 <= i < |list| ==> Names(list[i], tallas)
  }

  predicate Distinct(list: seq<BodyValue>) {
    forall i, j :: 0 <= i < j < |list| ==> list[i] != list[j]
  }

  /** Appending an entry adds the size it names, if any. */
  lemma FoundSnoc(tallas: set<string>, init: seq<BodyValue>, x: BodyValue)
    ensures Found(tallas, init + [x]) == Found(tallas, init) + (if Names(x, tallas) then {x.s} else {})
    ensures Names(x, tallas) ==> (x.s in Found(tallas, init) <==> x in init)
  {
    var list := init + [x];
    assert forall y :: y in list <==> y in init || y == x;
  }

  /** Appending an entry keeps the entries all named and distinct exactly
      when the entry is named and new. */
  lemma NamedDistinctSnoc(tallas: set<string>, init: seq<BodyValue>, x: BodyValue)
    ensures AllNamed(init + [x], tallas) <==> AllNamed(init, tallas) && Names(x, tallas)
    ensures Distinct(init + [x]) <==> Distinct(init) && x !in init
  {
    var list := init + [x];
    if Distinct(list) {
      forall i, j | 0 <= i < j < |init| ensures init[i] != init[j] {
        assert init[i] == list[i] && init[j] == list[j];
      }
    }
    if x in init {
      var k :| 0 <= k < |init| && init[k] == x;
      assert list[k] == list[|init|];
    }
    if Distinct(init) && x !in init {
      forall i, j | 0 <= i < j < |list| ensures list[i] != list[j] {
        if j < |init| {
          assert list[i] == init[i] && list[j] == init[j];
        } else {
          assert list[i] == init[i];
        }
      }
    }
    if AllNamed(list, tallas) {
      assert Names(list[|init|], tallas);
      forall i | 0 <= i < |init| ensures Names(init[i], tallas) {
        assert init[i] == list[i];
      }
    }
  }

  /** The lookup finds at most one size per entry, and exactly one per
      entry when the entries all name stored sizes and are distinct. */
  lemma {:induction false} FoundCount(tallas: set<string>, list: seq<BodyValue>)
    ensures |Found(tallas, list)| <= |list|
    ensures |Found(tallas, list)| == |list| <==> AllNamed(list, tallas) && Distinct(list)
  {
    if list == [] {
      assert Found(tallas, list) == {};
    } else {
      var init := list[..|list| - 1];
      var x := list[|list| - 1];
      assert list == init + [x];
      FoundCount(tallas, init);
      FoundSnoc(tallas, init, x);
      NamedDistinctSnoc(tallas, init, x);
    }
  }

  /** The check passes exactly when the list is empty, or its entries are
      distinct strings that all name stored sizes. */
  lemma CheckTallasIff(tallas: set<string>, list: seq<BodyValue>)
    ensures CheckTallas(tallas, list).None? <==> AllNamed(list, tallas) && Distinct(list)
  {
    FoundCount(tallas, list);
  }

  /** An entry naming no stored size is always reported. */
  lemma UnknownIdReported(tallas: set<string>, list: seq<BodyValue>, i: int)
    requires 0 <= i < |list| && !Names(list[i], tallas)
    ensures CheckTallas(tallas, list).Some? && list[i] in CheckTallas(tallas, list).value
  {
    FoundCount(tallas, list);
  }

  /** A list that repeats a stored size and names nothing else is refused,
      with no invalid id to report. */
  lemma RepeatedSizeRefused(tallas: set<string>, list: seq<BodyValue>, i: int, j: int)
    requires AllNamed(list, tallas) && 0 <= i < j < |list| && list[i] == list[j]
    ensures CheckTallas(tallas, list) == Some([])
  {
    FoundCount(tallas, list);
    var found := Found(tallas, list);
    forall k | 0 <= k < |list| ensures Names(list[k], found) {
      assert Names(list[k], tallas) && Str(list[k].s) in list;
    }
    InvalidIdsNone(list, found);
  }

  /** Entries that all name found sizes leave nothing to report. */
  lemma {:induction false} InvalidIdsNone(list: seq<BodyValue>, found: set<string>)
    requires forall k :: 0 <= k < |list| ==> Names(list[k], found)
    ensures InvalidIds(list, found) == []
  {
    if list != [] {
      InvalidIdsNone(list[1..], found);
    }
  }

  // ---------------------------------------------------------------------------
  // createProducto

  /** The request body fields `createProducto` reads. */
  datatype ProductoBody = ProductoBody(
    nombre: Option<string>, descripcion: Option<string>, localidadId: Option<string>,
    tipoTela: Option<string>, tallasDisponibles: BodyValue, imagenURL: Option<string>)

  /** A product as `createProducto` saves it. */
  datatype Producto = Producto(
    nombre: Option<string>, descripcion: Option<string>, localidadId: Option<string>,
    tipoTela: Option<string>, tallasDisponibles: seq<BodyValue>, imagenURL: string)

  /** `createProducto` over the ids of the stored sizes: 400 with the
      invalid ids when the size check fails; 500 when the upload fails;
      otherwise the product with the normalised sizes and the uploaded URL,
      or the body's URL or "". The schema requires `localidadId`: without
      one the save is refused, a 400 when a file was uploaded and a 500
      otherwise. */
  method CreateProducto(tallas: set<string>, body: ProductoBody, upload: Upload)
    returns (status: int, invalid: seq<BodyValue>, saved: Option<Producto>)
    ensures var list := TallasList(body.tallasDisponibles);
      match CheckTallas(tallas, list)
      case Some(ids) => status == 400 && invalid == ids && saved == None
      case None =>
        invalid == []
        && (upload.UploadFailed? ==> status == 500 && saved == None)
        && (!upload.UploadFailed? && !Truthy(body.localidadId) ==>
              status == (if upload.Uploaded? then 400 else 500) && saved == None)
        && (!upload.UploadFailed? && Truthy(body.localidadId) ==>
              status == 201
              && saved == Some(Producto(body.nombre, body.descripcion, body.localidadId, body.tipoTela, list,
                                        if upload.Uploaded? then upload.url else OrElse(body.imagenURL, ""))))
  {
    var tallasDisponibles := body.tallasDisponibles;
    var list: seq<BodyValue>;
    if tallasDisponibles.Str? {
      list := [tallasDisponibles];
    } else if !tallasDisponibles.List? {
      list := if IsTruthy(tallasDisponibles) then [tallasDisponibles] else [];
    } else {
      list := tallasDisponibles.items;
    }
    invalid := [];
    saved := None;
    if |list| > 0 {
      var validTallas := Found(tallas, list);
      if |validTallas| != |list| {
        return 400, InvalidIds(list, validTallas), None;
      }
    }
    var productData := Producto(body.nombre, body.descripcion, body.localidadId, body.tipoTela, list,
                                OrElse(body.imagenURL, ""));
    match upload {
      case UploadFailed =>
        return 500, [], None;
      case Uploaded(url, _) =>
        productData := productData.(imagenURL := url);
        if !Truthy(body.localidadId) {
          return 400, [], None;
        }
      case NoFile =>
        if !Truthy(body.localidadId) {
          return 500, [], None;
        }
    }
    status := 201;
    saved := Some(productData);
  }

  // ---------------------------------------------------------------------------
  // getProductos and deleteProducto

  /** `getProductos`: an empty collection is a 404, not an empty list. */
  function GetProductos(productos: seq<Producto>): (r: (int, seq<Producto>))
    ensures r.0 == 404 <==> productos == []
    ensures r.0 != 404 ==> r == (200, productos)
    ensures r.0 == 404 ==> r.1 == []
  {
    if productos == [] then (404, []) else (200, productos)
  }

  /** `deleteProducto`: 404 for an unknown id; otherwise the product is
      removed, and its image destroyed as `productos/<id of its URL>` when
      it has one. */
  function DeleteProducto(productos: map<string, Producto>, id: string)
    : (out: (int, Option<string>, map<string, Producto>))
    ensures out.0 == 404 <==> id !in productos
    ensures out.0 == 404 ==> out.2 == productos && out.1 == None
    ensures out.0 != 404 ==> out.0 == 200 && out.2 == productos - {id}
    ensures out.0 != 404 ==> (out.1.Some? <==> productos[id].imagenURL != "")
    ensures out.1.Some? ==> out.1.value == DestroyId(ProductosFolder, productos[id].imagenURL)
  {
    if id !in productos then (404, None, productos)
    else
      var url := productos[id].imagenURL;
      (200, if url != "" then Some(DestroyId(ProductosFolder, url)) else None, productos - {id})
  }

  /** A product image at `base/name.ext` is destroyed as `productos/name`. */
  lemma ProductoImageIdOf(productos: map<string, Producto>, id: string, base: string, name: string, ext: string)
    requires id in productos && productos[id].imagenURL == base + "/" + name + "." + ext
    requires '/' !in name && '.' !in name && '/' !in ext
    ensures DeleteProducto(productos, id).1 == Some("productos/" + name)
  {
    MediaIdOf(base, name, ext);
  }
}
