/** ASCII letter case, the part of `String.toLowerCase` that the MIME-type
    resolution relies on. */
module Ascii {

  /** The lower-case form of an ASCII upper-case letter; every other character
      is left alone. */
  function ToLowerChar(c: char): char
  {
    if 'A' <= c <= 'Z' then (c as int - 'A' as int + 'a' as int) as char else c
  }

  /** `s.toLowerCase()`, restricted to ASCII letters. */
  function ToLower(s: string): (r: string)
    ensures |r| == |s|
    ensures forall k :: 0 <= k < |s| ==> r[k] == ToLowerChar(s[k])
  {
    if s == [] then [] else [ToLowerChar(s[0])] + ToLower(s[1..])
  }

  /** Lower-casing works character by character, so it distributes over
      concatenation. */
  lemma ToLowerAppend(a: string, b: string)
    ensures ToLower(a + b) == ToLower(a) + ToLower(b)
  {
    assert forall k :: 0 <= k < |a + b| ==> ToLower(a + b)[k] == (ToLower(a) + ToLower(b))[k];
  }

  /** `s.endsWith(suffix)`. */
  predicate EndsWith(s: string, suffix: string)
  {
    |suffix| <= |s| && s[|s| - |suffix|..] == suffix
  }

  /** The last `|ext|` characters of `name` spell `ext` when lower-cased one by
      one; `ext` itself is given in lower case. */
  predicate HasExtensionIgnoringCase(name: string, ext: string)
  {
    |ext| <= |name| &&
    forall k :: 0 <= k < |ext| ==> ToLowerChar(name[|name| - |ext| + k]) == ext[k]
  }

  /** Testing the lower-cased name for a lower-case suffix is the same as
      comparing the name's tail character by character, ignoring case. */
  lemma EndsWithLowerIff(name: string, ext: string)
    ensures EndsWith(ToLower(name), ext) <==> HasExtensionIgnoringCase(name, ext)
  {
    var lower := ToLower(name);
    if HasExtensionIgnoringCase(name, ext) {
      assert forall k :: 0 <= k < |ext| ==> lower[|lower| - |ext|..][k] == ext[k];
    }
    if EndsWith(lower, ext) {
      forall k | 0 <= k < |ext|
        ensures ToLowerChar(name[|name| - |ext| + k]) == ext[k]
      {
        assert lower[|lower| - |ext|..][k] == ext[k];
      }
    }
  }
}

/** The MIME type sent to the model alongside an uploaded image
    (`VertexAiServiceImpl.determineMimeType`). */
module MimeType {
  import opened Wrappers
  import opened Ascii

  const OctetStream := "application/octet-stream"
  const ImagePng := "image/png"
  const ImageJpeg := "image/jpeg"

  /** The declared content type says nothing useful, so the file name is
      consulted: it is `null` or exactly `application/octet-stream`. */
  predicate ConsultsFilename(contentType: Option<string>)
  {
    contentType.None? || contentType.value == OctetStream
  }

  /** The MIME type of an upload with the declared `contentType` and the
      original `filename`, either of which may be `null`. */
  function DetermineMimeType(contentType: Option<string>, filename: Option<string>): (r: string)
    // A declared type other than octet-stream wins, whatever the file name.
    ensures !ConsultsFilename(contentType) ==> r == contentType.value
    // Otherwise the answer is always one of the two image types ...
    ensures ConsultsFilename(contentType) ==> r == ImagePng || r == ImageJpeg
    // ... and it is PNG exactly when the name ends in `.png`, in any case.
    ensures ConsultsFilename(contentType) ==>
      (r == ImagePng <==> filename.Some? && HasExtensionIgnoringCase(filename.value, ".png"))
  {
    if contentType.None? || contentType.value == OctetStream then
      if filename.Some? then
        EndsWithLowerIff(filename.value, ".png");
        if EndsWith(ToLower(filename.value), ".png") then
          ImagePng
        else if EndsWith(ToLower(filename.value), ".jpg") || EndsWith(ToLower(filename.value), ".jpeg") then
          ImageJpeg
        else
          ImageJpeg
      else
        ImageJpeg
    else
      contentType.value
  }

  /** A file name made of any stem followed by `.png` written in any mix of
      letter cases resolves to `image/png` when the declared type is unusable. */
  lemma PngInAnyCase(contentType: Option<string>, stem: string, ext: string)
    requires ConsultsFilename(contentType)
    requires ToLower(ext) == ".png"
    ensures DetermineMimeType(contentType, Some(stem + ext)) == ImagePng
  {
    ToLowerAppend(stem, ext);
    assert ToLower(stem + ext)[|stem|..] == ".png";
  }

  /** Likewise `.jpg` and `.jpeg`, in any letter case, resolve to `image/jpeg`. */
  lemma JpegInAnyCase(contentType: Option<string>, stem: string, ext: string)
    requires ConsultsFilename(contentType)
    requires ToLower(ext) == ".jpg" || ToLower(ext) == ".jpeg"
    ensures DetermineMimeType(contentType, Some(stem + ext)) == ImageJpeg
  {
    ToLowerAppend(stem, ext);
    var lower := ToLower(stem + ext);
    assert lower[|stem|..] == ToLower(ext);
    // `.jpg` and `.jpeg` both end in `g`, so the name cannot also end in `.png`.
    assert lower[|lower| - 1] == 'g';
    assert !EndsWith(lower, ".png");
  }

  /** A missing file name, or one whose extension is not recognised, falls back
      to `image/jpeg`. */
  lemma UnknownFallsBackToJpeg(contentType: Option<string>, filename: Option<string>)
    requires ConsultsFilename(contentType)
    requires filename.Some? ==>
      !HasExtensionIgnoringCase(filename.value, ".png") &&
      !HasExtensionIgnoringCase(filename.value, ".jpg") &&
      !HasExtensionIgnoringCase(filename.value, ".jpeg")
    ensures DetermineMimeType(contentType, filename) == ImageJpeg
  {
    if filename.Some? {
      EndsWithLowerIff(filename.value, ".png");
    }
  }

  /** `photo.PNG` with no declared type is a PNG image. */
  lemma ExampleUpperCasePng()
    ensures DetermineMimeType(None, Some("photo.PNG")) == ImagePng
  {
    assert "photo" + ".PNG" == "photo.PNG";
    PngInAnyCase(None, "photo", ".PNG");
  }

  /** `x.jpeg` declared as octet-stream is a JPEG image. */
  lemma ExampleOctetStreamJpeg()
    ensures DetermineMimeType(Some(OctetStream), Some("x.jpeg")) == ImageJpeg
  {
    assert "x" + ".jpeg" == "x.jpeg";
    JpegInAnyCase(Some(OctetStream), "x", ".jpeg");
  }

  /** An empty declared type, or octet-stream in another letter case, is
      passed through unchanged. */
  lemma ExampleDeclaredPassThrough()
    ensures DetermineMimeType(Some(""), Some("a.png")) == ""
    ensures DetermineMimeType(Some("Application/Octet-Stream"), Some("a.png")) == "Application/Octet-Stream"
  {
    assert "Application/Octet-Stream"[0] != OctetStream[0];
  }
}
