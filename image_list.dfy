/**
 * Which directory entries `populateImageList` shows: those whose
 * lower-cased name ends with one of the supported image extensions, in
 * the order the directory listing gives them.
 */
module ImageList {
  import opened PyStr

  /** `supported_extensions` */
  const SupportedExtensions: seq<string> := [".png", ".jpg", ".jpeg", ".bmp", ".gif"]

  /** `f.lower().endswith(supported_extensions)` */
  predicate IsImageName(name: string) {
    EndsWithAny(Lower(name), SupportedExtensions)
  }

  /** `[f for f in listing if f.lower().endswith(supported_extensions)]` */
  function ImageFiles(listing: seq<string>): (files: seq<string>)
    ensures |files| <= |listing|
    ensures forall f :: f in files <==> f in listing && IsImageName(f)
  {
    if listing == [] then []
    else (if IsImageName(listing[0]) then [listing[0]] else []) + ImageFiles(listing[1..])
  }

  /** The filter keeps listing order: it distributes over concatenation. */
  lemma {:induction false} ImageFilesAppend(a: seq<string>, b: seq<string>)
    ensures ImageFiles(a + b) == ImageFiles(a) + ImageFiles(b)
  {
    if a == [] {
      assert a + b == b;
    } else {
      assert (a + b)[1..] == a[1..] + b;
      ImageFilesAppend(a[1..], b);
    }
  }

  /** Every image entry is kept as often as it occurs; every other entry is dropped. */
  lemma {:induction false} ImageFilesCount(listing: seq<string>, f: string)
    ensures multiset(ImageFiles(listing))[f]
         == if IsImageName(f) then multiset(listing)[f] else 0
  {
    if listing != [] {
      ImageFilesCount(listing[1..], f);
      assert listing == [listing[0]] + listing[1..];
    }
  }

  /** The check ignores letter case: a name and its lower-case form agree. */
  lemma ImageNameIgnoresCase(name: string)
    ensures IsImageName(Lower(name)) == IsImageName(name)
  {
    LowerIdempotent(name);
  }

  lemma ExampleUpperCaseJpeg(name: string)
    requires name == "IMG_01.JPEG"
    ensures IsImageName(name)
  {
    var low := Lower(name);
    assert low[|low| - 5..] == ".jpeg";
    assert EndsWith(low, SupportedExtensions[2]);
  }

  lemma ExampleTextFile(name: string)
    requires name == "notes.txt"
    ensures !IsImageName(name)
  {
    var low := Lower(name);
    assert low[|low| - 4..] == ".txt" && low[|low| - 5..] == "s.txt";
    forall k | 0 <= k < |SupportedExtensions|
      ensures !EndsWith(low, SupportedExtensions[k])
    {
      var ext := SupportedExtensions[k];
      assert ext[1] != 't';
    }
  }
}
