/**
  The file-name suffix to MIME type mapping used when sending media. Suffixes
  are tested in a fixed order, case-sensitively; an unknown suffix raises.

  As written, the raise is `throw new "Unknown mimetype " + str`, which applies
  `new` to a string and so raises a TypeError that names neither the problem
  nor the file; `GetContentType` raises the error the line evidently means.
 */
module ContentType {
  import opened Wrappers
  import opened JsString

  /** The suffixes in the order they are tested, each with its MIME type. */
  const MIME_TABLE: seq<(string, string)> := [
    (".png", "image/png"),
    (".jpg", "image/jpg"),
    (".jpeg", "image/jpeg"),
    (".mp4", "video/mp4"),
    (".mp3", "audio/mpeg")
  ]

  /** The message of the TypeError raised by `new` applied to a string. */
  const NOT_A_CONSTRUCTOR := "\"Unknown mimetype \" is not a constructor"

  datatype Thrown = TypeError(message: string) | Error(message: string)

  datatype Lookup = Found(mime: string) | Raised(error: Thrown)

  /** The suffix tests of the source, in its order, without the final raise. */
  function SuffixMime(s: string): (r: Option<string>)
  {
    if EndsWith(s, ".png") then Some("image/png")
    else if EndsWith(s, ".jpg") then Some("image/jpg")
    else if EndsWith(s, ".jpeg") then Some("image/jpeg")
    else if EndsWith(s, ".mp4") then Some("video/mp4")
    else if EndsWith(s, ".mp3") then Some("audio/mpeg")
    else None
  }

  /** The position of the first table row at or after `i` whose suffix ends `s`, or `|MIME_TABLE|`. */
  function FirstRow(s: string, i: nat): (k: nat)
    requires i <= |MIME_TABLE|
    ensures i <= k <= |MIME_TABLE|
    ensures k < |MIME_TABLE| ==> EndsWith(s, MIME_TABLE[k].0)
    ensures forall j :: i <= j < k ==> !EndsWith(s, MIME_TABLE[j].0)
    decreases |MIME_TABLE| - i
  {
    if i == |MIME_TABLE| || EndsWith(s, MIME_TABLE[i].0) then i else FirstRow(s, i + 1)
  }

  /**
    The chain of tests agrees with the table read top to bottom: a type is found
    exactly when some listed suffix ends the name, and it is the type of the
    first such row.
   */
  lemma SuffixMimeIsFirstRow(s: string)
    ensures var k := FirstRow(s, 0);
      && (SuffixMime(s).Some? <==> k < |MIME_TABLE|)
      && (k < |MIME_TABLE| ==> SuffixMime(s) == Some(MIME_TABLE[k].1))
  {
    var k := FirstRow(s, 0);
    if k == |MIME_TABLE| {
      assert forall j :: 0 <= j < 5 ==> !EndsWith(s, MIME_TABLE[j].0);
    }
  }

  /** `getContentType(str)` as written: an unknown suffix raises the TypeError of `new "..."`. */
  function GetContentTypeAsWritten(s: string): (r: Lookup)
    ensures r.Found? <==> SuffixMime(s).Some?
    ensures r.Found? ==> r.mime == SuffixMime(s).value
    ensures r.Raised? ==> r.error == TypeError(NOT_A_CONSTRUCTOR)
  {
    match SuffixMime(s)
    case Some(m) => Found(m)
    case None => Raised(TypeError(NOT_A_CONSTRUCTOR))
  }

  /** `getContentType(str)`: the MIME type of the first matching suffix, or an error naming the file. */
  function GetContentType(s: string): (r: Lookup)
    ensures r.Found? <==> exists j :: 0 <= j < |MIME_TABLE| && EndsWith(s, MIME_TABLE[j].0)
    ensures r.Found? ==> FirstRow(s, 0) < |MIME_TABLE| && r.mime == MIME_TABLE[FirstRow(s, 0)].1
    ensures r.Raised? ==> r.error == Error("Unknown mimetype " + s)
  {
    SuffixMimeIsFirstRow(s);
    match SuffixMime(s)
    case Some(m) => Found(m)
    case None => Raised(Error("Unknown mimetype " + s))
  }

  /** Both versions agree on every name they map; they differ only in what they raise. */
  lemma SameMapping(s: string)
    ensures GetContentType(s).Found? <==> GetContentTypeAsWritten(s).Found?
    ensures GetContentType(s).Found? ==> GetContentType(s) == GetContentTypeAsWritten(s)
  {
  }

  /** The raise as written loses the file name: the error for "clip.gif" does not mention it. */
  lemma UnknownSuffixLosesName()
    ensures GetContentTypeAsWritten("clip.gif") == Raised(TypeError(NOT_A_CONSTRUCTOR))
    ensures GetContentType("clip.gif") == Raised(Error("Unknown mimetype clip.gif"))
  {
    GifUnmapped("clip.gif");
  }

  /** No table suffix ends "clip.gif". */
  lemma GifUnmapped(s: string)
    requires s == "clip.gif"
    ensures SuffixMime(s) == None
  {
    assert s[4..] == ".gif";
    assert s[5..] == "gif";
  }

  /** The `i`-th character of a suffix sits `|suffix| - i` characters from the end. */
  lemma EndsWithChar(s: string, suffix: string, i: nat)
    requires EndsWith(s, suffix) && i < |suffix|
    ensures s[|s| - |suffix| + i] == suffix[i]
  {
    assert s[|s| - |suffix|..][i] == s[|s| - |suffix| + i];
  }

  /** A name ending in ".jpeg" is not taken for ".jpg", which is tested first. */
  lemma JpegIsNotJpg(s: string)
    requires EndsWith(s, ".jpeg")
    ensures GetContentType(s) == Found("image/jpeg")
  {
    EndsWithChar(s, ".jpeg", 1);
    EndsWithChar(s, ".jpeg", 4);
  }

  /** The tests are case-sensitive: an upper-case suffix is not recognised. */
  lemma UpperCaseSuffixRaises(stem: string)
    ensures GetContentType(stem + ".PNG").Raised?
  {
    var s := stem + ".PNG";
    assert s[|s| - 1] == 'G';
  }
}
