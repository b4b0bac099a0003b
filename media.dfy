/** What the controllers share about hosted media: the upload filters and
    size limits, the outcome of an upload, and the public id under which a
    stored URL's file is destroyed on the media host. */
module Media {
  import opened Wrappers
  import opened JsText

  /** The outcome of the upload step of a request: no file was sent, the
      host stored it under `url` (with the host's public id), or it failed. */
  datatype Upload = NoFile | Uploaded(url: string, publicId: string) | UploadFailed

  /** The host's folders, as the destroy calls prefix them. */
  const ProductosFolder: string := "productos/"
  const VideosFolder: string := "galeria/videos/"
  const FotosFolder: string := "galeria/fotos/"
  const ServiciosFolder: string := "servicios/"
  const CategoriasFolder: string := "categorias/"

  /** `url.split('/').pop().split('.')[0]`: the last path segment up to its first dot. */
  function MediaId(url: string): (id: string)
    ensures '/' !in id && '.' !in id
  {
    var segment := LastPart(url, '/');
    assert '/' !in segment;
    var id := FirstPart(segment, '.');
    assert forall c :: c in id ==> c in segment by {
      SplitPrefix(segment, '.');
    }
    id
  }

  /** The first part of a split is a prefix of the string. */
  lemma {:induction false} SplitPrefix(s: string, sep: char)
    ensures |Split(s, sep)[0]| <= |s| && Split(s, sep)[0] == s[..|Split(s, sep)[0]|]
  {
    if s != [] {
      SplitPrefix(s[1..], sep);
    }
  }

  /** A URL `base/name.ext`, with no '/' in `name` or `ext` and no '.' in
      `name`, has the id `name`, whatever the base. */
  lemma MediaIdOf(base: string, name: string, ext: string)
    requires '/' !in name && '.' !in name && '/' !in ext
    ensures MediaId(base + "/" + name + "." + ext) == name
  {
    var file := name + "." + ext;
    assert base + "/" + name + "." + ext == base + ['/'] + file;
    SplitAround(base, file, '/');
    SplitWithoutSeparator(file, '/');
    assert LastPart(base + ['/'] + file, '/') == file;
    assert file == name + ['.'] + ext;
    SplitAround(name, ext, '.');
    SplitWithoutSeparator(name, '.');
  }

  /** A bare name with neither separator is its own id. */
  lemma MediaIdOfBareName(name: string)
    requires '/' !in name && '.' !in name
    ensures MediaId(name) == name
  {
    SplitWithoutSeparator(name, '/');
    SplitWithoutSeparator(name, '.');
  }

  /** The id under which the file of a stored URL is destroyed in `folder`. */
  function DestroyId(folder: string, url: string): (id: string)
    ensures StartsWith(id, folder) && id[|folder|..] == MediaId(url)
  {
    var id := folder + MediaId(url);
    assert id[..|folder|] == folder;
    id
  }

  /** A payload entry set by `if (v) updateData.f = v`: the value when it is
      truthy, absent otherwise. */
  function IfTruthy(v: Option<string>): (r: Option<string>)
    ensures r.Some? <==> Truthy(v)
    ensures r.Some? ==> r == v
  {
    if Truthy(v) then v else None
  }

  /** The multer file filter: accepted, or refused with a message. */
  datatype FilterResult = Accept | Reject(message: string)

  /** The image filter of the photo and service uploads. */
  function ImageFilter(mimetype: string): (r: FilterResult)
    ensures r == Accept <==> StartsWith(mimetype, "image/")
    ensures r != Accept ==> r == Reject("Solo se permiten imágenes")
  {
    if StartsWith(mimetype, "image/") then Accept else Reject("Solo se permiten imágenes")
  }

  /** The video filter of the video uploads. */
  function VideoFilter(mimetype: string): (r: FilterResult)
    ensures r == Accept <==> StartsWith(mimetype, "video/")
    ensures r != Accept ==> r == Reject("Solo se permiten videos")
  {
    if StartsWith(mimetype, "video/") then Accept else Reject("Solo se permiten videos")
  }

  /** No file passes both filters. */
  lemma FiltersDisjoint(mimetype: string)
    ensures !(ImageFilter(mimetype) == Accept && VideoFilter(mimetype) == Accept)
  {
    if StartsWith(mimetype, "image/") {
      assert mimetype[0] == 'i';
    }
  }

  /** The size limits, in bytes: 10 MB for images, 100 MB for videos. */
  const ImageLimit: int := 10 * 1024 * 1024
  const VideoLimit: int := 100 * 1024 * 1024

  /** multer admits a file of at most `limit` bytes that the filter accepts. */
  predicate Admitted(filter: FilterResult, size: nat, limit: int) {
    filter == Accept && size <= limit
  }

  /** Any image the photo upload admits, the video upload refuses, and a
      file of more than 10 MB is not an admitted image. */
  lemma ImageAdmission(mimetype: string, size: nat)
    ensures Admitted(ImageFilter(mimetype), size, ImageLimit) ==> !Admitted(VideoFilter(mimetype), size, VideoLimit)
    ensures size > 10_485_760 ==> !Admitted(ImageFilter(mimetype), size, ImageLimit)
  {
    FiltersDisjoint(mimetype);
  }
}
