/** The multer upload filter (src/files/helpers/fileFilter.helper.ts): a
    file is accepted when the part of its MIME type after the first `/` is
    one of four image extensions. */
module FileFilter {
  import opened Wrappers
  import opened Text

  /** The part of an uploaded file the filter looks at. */
  datatype UploadedFile = UploadedFile(mimetype: string)

  /** The single `callback(error, acceptFile)` call the filter makes. */
  datatype Callback = Callback(error: Option<string>, accept: bool)

  /** The accepted extensions, compared case-sensitively. */
  const ValidExtensions: seq<string> := ["jpeg", "jpg", "png", "gif"]

  /** `mimetype.split('/')[1]`: None stands for `undefined` when the MIME type
      holds no `/`; otherwise the text between the first `/` and the next one
      (or the end). */
  function Extension(mimetype: string): (ext: Option<string>)
    ensures ext.None? <==> '/' !in mimetype
    ensures ext.Some? ==>
      var rest := mimetype[IndexOf(mimetype, '/') + 1..];
      && '/' !in ext.value
      && |ext.value| <= |rest|
      && ext.value == rest[..|ext.value|]
      && (|ext.value| == |rest| || rest[|ext.value|] == '/')
  {
    var parts := Split(mimetype, '/');
    if |parts| >= 2 then
      assert parts[1] == Split(mimetype[IndexOf(mimetype, '/') + 1..], '/')[0];
      Some(parts[1])
    else None
  }

  /** `fileFilter(req, file, callback)`: exactly one callback outcome. */
  function Filter(file: Option<UploadedFile>): (cb: Callback)
    ensures file.None? ==> cb == Callback(Some("File is empty"), false)
    ensures file.Some? ==> cb.error.None?
    ensures file.Some? ==>
      (cb.accept <==>
        Extension(file.value.mimetype).Some? && Extension(file.value.mimetype).value in ValidExtensions)
  {
    if file.None? then Callback(Some("File is empty"), false)
    else
      var ext := Extension(file.value.mimetype);
      if ext.None? || ext.value !in ValidExtensions then Callback(None, false)
      else Callback(None, true)
  }

  /** A MIME type with no `/` is rejected without an error. */
  lemma NoSlashRejected(mimetype: string)
    requires '/' !in mimetype
    ensures Filter(Some(UploadedFile(mimetype))) == Callback(None, false)
  {
  }

  /** After a `/`-free type and a `/`, the extension is the first
      `/`-separated segment of what follows. */
  lemma ExtensionAfterType(kind: string, rest: string)
    requires '/' !in kind
    ensures Extension(kind + "/" + rest) == Some(Split(rest, '/')[0])
  {
    SplitCons(kind, '/', rest);
    assert kind + "/" + rest == kind + ['/'] + rest;
  }

  /** For a `type/subtype` MIME type the decision depends on the subtype
      alone, matched exactly against the four extensions. */
  lemma {:induction false} DecidedBySubtype(kind: string, subtype: string)
    requires '/' !in kind && '/' !in subtype
    ensures Filter(Some(UploadedFile(kind + "/" + subtype))).accept <==> subtype in ValidExtensions
  {
    ExtensionAfterType(kind, subtype);
  }

  /** The first segment of `subtype/tail` is `subtype`. */
  lemma FirstSegment(subtype: string, tail: string)
    requires '/' !in subtype
    ensures Split(subtype + "/" + tail, '/')[0] == subtype
  {
    assert subtype + "/" + tail == subtype + ['/'] + tail;
    SplitCons(subtype, '/', tail);
  }

  /** Reading `type/subtype/tail` as `type/` followed by `subtype/tail`. */
  lemma Reassociate(kind: string, subtype: string, tail: string)
    ensures kind + "/" + subtype + "/" + tail == kind + "/" + (subtype + "/" + tail)
  {
  }

  /** The extension of `type/subtype/tail` is that of `type/subtype`. */
  lemma ExtensionIgnoresTail(kind: string, subtype: string, tail: string)
    requires '/' !in kind && '/' !in subtype
    ensures Extension(kind + "/" + subtype + "/" + tail) == Extension(kind + "/" + subtype)
  {
    Reassociate(kind, subtype, tail);
    ExtensionAfterType(kind, subtype + "/" + tail);
    ExtensionAfterType(kind, subtype);
    FirstSegment(subtype, tail);
  }

  /** Parameters after a further `/` do not matter: only the second segment
      is examined. */
  lemma {:induction false} LaterSegmentsIgnored(kind: string, subtype: string, tail: string)
    requires '/' !in kind && '/' !in subtype
    ensures Filter(Some(UploadedFile(kind + "/" + subtype + "/" + tail))) ==
            Filter(Some(UploadedFile(kind + "/" + subtype)))
  {
    ExtensionIgnoresTail(kind, subtype, tail);
  }

  /** `image/png` passes. */
  lemma AcceptsPng()
    ensures Filter(Some(UploadedFile("image/png"))) == Callback(None, true)
  {
    assert '/' !in "image" && '/' !in "png";
    DecidedBySubtype("image", "png");
    assert "image" + "/" + "png" == "image/png";
  }

  /** The comparison is case-sensitive: `image/PNG` is refused. */
  lemma RejectsUpperCasePng()
    ensures Filter(Some(UploadedFile("image/PNG"))) == Callback(None, false)
  {
    assert '/' !in "image" && '/' !in "PNG";
    assert "PNG" !in ValidExtensions by {
      assert "PNG"[0] != "png"[0];
    }
    DecidedBySubtype("image", "PNG");
    assert "image" + "/" + "PNG" == "image/PNG";
  }
}
