/**
 * The storage trigger that ingests an uploaded photo (functions/src/parseImageMetadata.ts):
 * which uploads it accepts, the name it stores the derived files under, the early
 * return on missing GPS tags, and the in-place pass that paints a border into the
 * map-marker thumbnail and makes its corners transparent.
 */
module ImageIngest {
  import opened Util

  // Storage paths (lines 13-17)

  /** `s.split(sep)`: the pieces between separators; always at least one. */
  function Split(s: string, sep: char): (parts: seq<string>)
    ensures |parts| >= 1
    ensures forall k :: 0 <= k < |parts| ==> sep !in parts[k]
  {
    if |s| == 0 then [""]
    else
      var rest := Split(s[1..], sep);
      if s[0] == sep then [""] + rest else [[s[0]] + rest[0]] + rest[1..]
  }

  /** `parts.join(sep)`. */
  function Join(parts: seq<string>, sep: char): string
    requires |parts| >= 1
  {
    if |parts| == 1 then parts[0] else parts[0] + [sep] + Join(parts[1..], sep)
  }

  /** Splitting loses nothing: joining the pieces gives the string back. */
  lemma {:induction false} JoinSplit(s: string, sep: char)
    ensures Join(Split(s, sep), sep) == s
  {
    if |s| > 0 {
      JoinSplit(s[1..], sep);
      var rest := Split(s[1..], sep);
      if s[0] != sep {
        if |rest| == 1 {
          assert Join(rest, sep) == rest[0];
        } else {
          assert Join(rest, sep) == rest[0] + [sep] + Join(rest[1..], sep);
          assert ([[s[0]] + rest[0]] + rest[1..])[1..] == rest[1..];
        }
        assert [s[0]] + s[1..] == s;
      } else {
        assert ([""] + rest)[1..] == rest;
        assert [s[0]] + s[1..] == s;
      }
    }
  }

  /** Pieces free of the separator come back from their join unchanged. */
  lemma {:induction false} SplitJoin(parts: seq<string>, sep: char)
    requires |parts| >= 1 && forall k :: 0 <= k < |parts| ==> sep !in parts[k]
    ensures Split(Join(parts, sep), sep) == parts
    decreases |parts|, |parts[0]|
  {
    var head := parts[0];
    if |parts| == 1 {
      SplitFree(head, sep);
    } else if |head| == 0 {
      SplitJoin(parts[1..], sep);
      assert Join(parts, sep) == [sep] + Join(parts[1..], sep);
      assert ([sep] + Join(parts[1..], sep))[1..] == Join(parts[1..], sep);
      assert parts == [""] + parts[1..];
    } else {
      var shorter := [head[1..]] + parts[1..];
      assert forall k :: 1 <= k < |shorter| ==> shorter[k] == parts[k];
      SplitJoin(shorter, sep);
      assert shorter[1..] == parts[1..];
      assert Join(parts, sep) == [head[0]] + Join(shorter, sep);
      assert ([head[0]] + Join(shorter, sep))[1..] == Join(shorter, sep);
      assert [head[0]] + head[1..] == head;
      assert parts == [head] + parts[1..];
    }
  }

  lemma {:induction false} SplitFree(s: string, sep: char)
    requires sep !in s
    ensures Split(s, sep) == [s]
  {
    if |s| > 0 {
      assert sep !in s[1..];
      SplitFree(s[1..], sep);
      assert [s[0]] + s[1..] == s;
    }
  }

  /** The file name of an object stored directly under `pictures/`, or nothing for any other path. */
  function PictureFile(objectName: string): (r: Option<string>)
    ensures r.Some? ==> '/' !in r.value
  {
    var parts := Split(objectName, '/');
    if |parts| == 2 && parts[0] == "pictures" then Some(parts[1]) else None
  }

  /** Exactly the names `pictures/<file>` with no further `/` are accepted, and `<file>` is what is kept. */
  lemma PictureFileExactly(objectName: string, file: string)
    ensures PictureFile(objectName) == Some(file) <==> objectName == "pictures/" + file && '/' !in file
  {
    var parts := Split(objectName, '/');
    if PictureFile(objectName) == Some(file) {
      JoinSplit(objectName, '/');
      assert Join(parts, '/') == parts[0] + ['/'] + Join(parts[1..], '/');
    }
    if objectName == "pictures/" + file && '/' !in file {
      assert objectName == Join(["pictures", file], '/');
      SplitJoin(["pictures", file], '/');
    }
  }

  /** `s.lastIndexOf(c)`: the last position of `c`, or -1. */
  function LastIndexOf(s: string, c: char): (r: int)
    ensures -1 <= r < |s|
    ensures r >= 0 ==> s[r] == c
    ensures forall j :: r < j < |s| ==> s[j] != c
    ensures r == -1 <==> c !in s
  {
    if |s| == 0 then -1
    else if s[|s| - 1] == c then |s| - 1
    else
      var r := LastIndexOf(s[..|s| - 1], c);
      assert forall j :: 0 <= j < |s| - 1 ==> s[j] == s[..|s| - 1][j];
      r
  }

  /**
   * `s.slice(start, end)`: a negative bound counts from the end of the string, a
   * bound past either end is pulled back to it, and crossed bounds give "".
   */
  function Slice(s: string, start: int, end: int): (r: string)
    ensures |r| <= |s|
    ensures 0 <= start <= end <= |s| ==> r == s[start..end]
    ensures 0 <= start <= |s| <= end ==> r == s[start..]
    ensures 0 <= start <= |s| + end && end < 0 ==> r == s[start..|s| + end]
    ensures start < 0 && |s| <= end ==> r == s[Max0(|s| + start)..]
    ensures start < 0 <= end <= |s| && |s| + start < end ==> r == s[Max0(|s| + start)..end]
    ensures |s| <= start || end <= -|s| ==> r == ""
    ensures end <= start && (start < 0 <==> end < 0) ==> r == ""
  {
    var from := if start < 0 then Max0(|s| + start) else Min(start, |s|);
    var to := if end < 0 then Max0(|s| + end) else Min(end, |s|);
    if from >= to then "" else s[from..to]
  }

  function Max0(n: int): nat { if n < 0 then 0 else n }
  function Min(a: int, b: int): int { if a < b then a else b }

  /**
   * `fileName.slice(0, fileName.lastIndexOf("."))`: the name before its last dot.
   * A name without a dot loses its last character, as `lastIndexOf` gives -1 and
   * the slice then ends one before the end.
   */
  function NameWithoutExtension(file: string): (r: string)
    ensures '.' in file ==> |r| < |file| && file[|r|] == '.' && r == file[..|r|] && '.' !in file[|r| + 1..]
    ensures '.' !in file ==> r == file[..Max0(|file| - 1)]
  {
    var dot := LastIndexOf(file, '.');
    var r := Slice(file, 0, dot);
    assert '.' in file ==> r == file[..dot];
    r
  }

  /** A name saved as `<base>.<ext>` with a dot-free extension gives back `<base>`. */
  lemma NameOfNamedFile(base: string, ext: string)
    requires '.' !in ext
    ensures NameWithoutExtension(base + "." + ext) == base
  {
    var file := base + "." + ext;
    assert file[|base|] == '.' && file[|base| + 1..] == ext && file[..|base|] == base;
  }

  // The ingestion steps (lines 13-32, 42-43, 79-80)

  /** The EXIF tags the trigger reads; a tag the photo lacks is `None`. */
  datatype Exif = Exif(lat: Option<real>, lng: Option<real>, time: Option<int>)

  /**
   * What the trigger does with an upload: nothing for a path outside `pictures/`
   * (or an object without a name or download link), an error report when a GPS or
   * time tag is missing, or the two thumbnails and the image document.
   */
  datatype Outcome =
    | Ignored
    | MissingTags
    | Stored(src: string, galleryPath: string, previewPath: string, lat: real, lng: real, time: int)

  function Ingest(mediaLink: Option<string>, objectName: Option<string>, tags: Exif): (r: Outcome)
    ensures r == Ignored <==> mediaLink.None? || objectName.None? || PictureFile(objectName.value).None?
    ensures r == MissingTags <==> r != Ignored && (tags.lat.None? || tags.lng.None? || tags.time.None?)
    ensures r.Stored? ==>
      var name := NameWithoutExtension(PictureFile(objectName.value).value);
      && r.src == name
      && r.galleryPath == "gallery/" + name + ".jpg"
      && r.previewPath == "preview/" + name + ".png"
      && Some(r.lat) == tags.lat && Some(r.lng) == tags.lng && Some(r.time) == tags.time
  {
    if mediaLink.None? || objectName.None? then Ignored
    else
      match PictureFile(objectName.value)
      case None => Ignored
      case Some(file) =>
        if tags.lat.None? || tags.lng.None? || tags.time.None? then MissingTags
        else
          var name := NameWithoutExtension(file);
          Stored(name, "gallery/" + name + ".jpg", "preview/" + name + ".png",
                 tags.lat.value, tags.lng.value, tags.time.value)
  }

  /** A photo uploaded as `pictures/<base>.<ext>` with all tags is stored under `<base>`. */
  lemma UploadStoredUnderBase(link: string, base: string, ext: string, lat: real, lng: real, time: int)
    requires '/' !in base && '/' !in ext && '.' !in ext
    ensures Ingest(Some(link), Some("pictures/" + base + "." + ext), Exif(Some(lat), Some(lng), Some(time)))
      == Stored(base, "gallery/" + base + ".jpg", "preview/" + base + ".png", lat, lng, time)
  {
    var file := base + "." + ext;
    assert '/' !in file;
    assert "pictures/" + base + "." + ext == "pictures/" + file;
    PictureFileExactly("pictures/" + file, file);
    NameOfNamedFile(base, ext);
  }

  // The marker thumbnail mask (lines 56-76)

  newtype Byte = b: int | 0 <= b < 256

  /** Offset of channel `c` of pixel (x, y) in an RGBA bitmap `width` pixels wide. */
  function Idx(x: int, y: int, width: int, c: int): int {
    4 * (y * width + x) + c
  }

  /**
   * Distance of column `x` from the nearer vertical edge of the left half of the
   * bitmap (the photo; the right half is the transparent extension).
   */
  function EdgeDistanceX(x: int, width: int): int {
    if x < width / 4 then x else width / 2 - x - 1
  }

  /** Distance of row `y` from the nearer horizontal edge. */
  function EdgeDistanceY(y: int, height: int): int {
    if y < height / 2 then y else height - y - 1
  }

  /** The pixel is part of the painted frame: the product of its edge distances is at most 4. */
  predicate Border(x: int, y: int, width: int, height: int) {
    EdgeDistanceX(x, width) * EdgeDistanceY(y, height) <= 4
  }

  /**
   * The pixel is cut out of a rounded corner: the product of its edge distances,
   * each plus one, is at most 4; the lower-right corner keeps its pixels.
   */
  predicate Cleared(x: int, y: int, width: int, height: int) {
    (EdgeDistanceX(x, width) + 1) * (EdgeDistanceY(y, height) + 1) <= 4
    && (x < width / 4 || y < height / 2)
  }

  /** The frame colour (88, 94, 109), opaque. */
  function FrameColour(c: int): Byte
    requires 0 <= c < 4
  {
    if c == 0 then 88 else if c == 1 then 94 else if c == 2 then 109 else 255
  }

  /** Channel `c` of pixel (x, y) after the pass, from its value `v` before. */
  function MaskedChannel(v: Byte, x: int, y: int, c: int, width: int, height: int): Byte
    requires 0 <= c < 4
  {
    if x >= width / 2 then v
    else if c == 3 && Cleared(x, y, width, height) then 0
    else if Border(x, y, width, height) then FrameColour(c)
    else v
  }

  /** The bitmap holds `width * height` RGBA pixels, row by row. */
  predicate Bitmap(data: array<Byte>, width: nat, height: nat) {
    data.Length == 4 * width * height
  }

  /** Up to pixel (x, y) in row order the channels are masked; from it on they hold their old values. */
  ghost predicate MaskedBefore(data: seq<Byte>, orig: seq<Byte>, width: nat, height: nat, x: int, y: int)
    requires |data| == |orig| == 4 * width * height
  {
    forall i, j, c {:trigger Idx(i, j, width, c)} :: 0 <= i < width && 0 <= j < height && 0 <= c < 4 ==>
      IdxInRange(i, j, width, height, c) &&
      data[Idx(i, j, width, c)] ==
        if j < y || (j == y && i < x) then MaskedChannel(orig[Idx(i, j, width, c)], i, j, c, width, height)
        else orig[Idx(i, j, width, c)]
  }

  /** Every channel offset of the bitmap lies inside it. */
  predicate IdxInRange(x: int, y: int, width: int, height: int, c: int) {
    0 <= Idx(x, y, width, c) < 4 * width * height
  }

  /**
   * The mask pass over the left half of the bitmap, row by row: frame pixels are
   * painted the frame colour and the corner pixels made transparent; the right half
   * and the inner pixels keep their values.
   */
  method MaskThumbnail(data: array<Byte>, width: nat, height: nat)
    requires width % 4 == 0 && height % 2 == 0 && Bitmap(data, width, height)
    modifies data
    ensures forall x, y, c {:trigger Idx(x, y, width, c)} :: 0 <= x < width && 0 <= y < height && 0 <= c < 4 ==>
      IdxInRange(x, y, width, height, c) &&
      data[Idx(x, y, width, c)] == MaskedChannel(old(data[Idx(x, y, width, c)]), x, y, c, width, height)
  {
    ghost var orig := data[..];
    AllInRange(width, height);
    for y := 0 to height
      invariant MaskedBefore(data[..], orig, width, height, 0, y)
    {
      for x := 0 to width / 2
        invariant MaskedBefore(data[..], orig, width, height, x, y)
      {
        MaskPixel(data, width, height, x, y, orig);
      }
      RestOfRow(data[..], orig, width, height, y);
    }
  }

  /** One step of the scan: the four channels of pixel (x, y). */
  method MaskPixel(data: array<Byte>, width: nat, height: nat, x: nat, y: nat, ghost orig: seq<Byte>)
    requires width % 4 == 0 && height % 2 == 0 && Bitmap(data, width, height) && |orig| == data.Length
    requires x < width / 2 && y < height
    requires MaskedBefore(data[..], orig, width, height, x, y)
    modifies data
    ensures MaskedBefore(data[..], orig, width, height, x + 1, y)
  {
    var idx := Idx(x, y, width, 0);
    PixelInRange(x, y, width, height);
    var dx := if x < width / 4 then x else width / 2 - x - 1;
    var dy := if y < height / 2 then y else height - y - 1;
    ghost var before := data[..];
    if dx * dy <= 4 {
      data[idx] := 88;
      data[idx + 1] := 94;
      data[idx + 2] := 109;
      data[idx + 3] := 255;
    }
    if (dx + 1) * (dy + 1) <= 4 && (x < width / 4 || y < height / 2) {
      data[idx + 3] := 0;
    }
    PixelStep(before, data[..], orig, width, height, x, y);
  }

  /** Only the four channels of pixel (x, y) differ, and they now hold their masked values. */
  lemma PixelStep(before: seq<Byte>, after: seq<Byte>, orig: seq<Byte>, width: nat, height: nat, x: nat, y: nat)
    requires |before| == |after| == |orig| == 4 * width * height
    requires x < width / 2 && y < height
    requires 0 <= Idx(x, y, width, 0) && Idx(x, y, width, 3) < |after|
    requires MaskedBefore(before, orig, width, height, x, y)
    requires forall k :: 0 <= k < |after| && (k < Idx(x, y, width, 0) || k > Idx(x, y, width, 3)) ==> after[k] == before[k]
    requires forall c :: 0 <= c < 4 ==> after[Idx(x, y, width, c)] == MaskedChannel(before[Idx(x, y, width, c)], x, y, c, width, height)
    ensures MaskedBefore(after, orig, width, height, x + 1, y)
  {
    forall i, j, c | 0 <= i < width && 0 <= j < height && 0 <= c < 4
      ensures IdxInRange(i, j, width, height, c)
      ensures after[Idx(i, j, width, c)] ==
        if j < y || (j == y && i < x + 1) then MaskedChannel(orig[Idx(i, j, width, c)], i, j, c, width, height)
        else orig[Idx(i, j, width, c)]
    {
      assert IdxInRange(i, j, width, height, c);
      if i != x || j != y {
        IdxApart(i, j, x, y, width, c);
      }
    }
  }

  /** Channels of different pixels sit at different offsets, outside each other's four bytes. */
  lemma IdxApart(i: nat, j: nat, x: nat, y: nat, width: nat, c: nat)
    requires i < width && x < width && c < 4 && (i != x || j != y)
    ensures Idx(i, j, width, c) < Idx(x, y, width, 0) || Idx(i, j, width, c) > Idx(x, y, width, 3)
  {
    var p, q := j * width + i, y * width + x;
    if j < y {
      MulMonotone(j + 1, y, width);
      assert p < q;
    } else if y < j {
      MulMonotone(y + 1, j, width);
      assert q < p;
    } else {
      assert p != q;
    }
  }

  lemma MulMonotone(a: nat, b: nat, w: nat)
    requires a <= b
    ensures a * w <= b * w
  {
    MulNonnegInt(b - a, w);
  }

  lemma MulNonnegInt(a: nat, b: nat)
    ensures a * b >= 0
  {
  }

  lemma PixelInRange(x: nat, y: nat, width: nat, height: nat)
    requires x < width && y < height
    ensures 0 <= Idx(x, y, width, 0) && Idx(x, y, width, 3) < 4 * width * height
  {
    MulMonotone(y + 1, height, width);
    assert (y + 1) * width == y * width + width;
    assert height * width * 4 == 4 * width * height;
  }

  lemma AllInRange(width: nat, height: nat)
    ensures forall x, y, c :: 0 <= x < width && 0 <= y < height && 0 <= c < 4 ==> IdxInRange(x, y, width, height, c)
  {
    forall x, y, c | 0 <= x < width && 0 <= y < height && 0 <= c < 4
      ensures IdxInRange(x, y, width, height, c)
    {
      PixelInRange(x, y, width, height);
    }
  }

  /** The right half of a row is left as it was, so finishing the left half finishes the row. */
  lemma RestOfRow(data: seq<Byte>, orig: seq<Byte>, width: nat, height: nat, y: int)
    requires |data| == |orig| == 4 * width * height
    requires MaskedBefore(data, orig, width, height, width / 2, y)
    ensures MaskedBefore(data, orig, width, height, 0, y + 1)
  {
    forall i, j, c | 0 <= i < width && 0 <= j < height && 0 <= c < 4
      ensures IdxInRange(i, j, width, height, c)
      ensures data[Idx(i, j, width, c)] ==
        if j < y + 1 then MaskedChannel(orig[Idx(i, j, width, c)], i, j, c, width, height)
        else orig[Idx(i, j, width, c)]
    {
      assert IdxInRange(i, j, width, height, c);
      if j == y && i >= width / 2 {
        RightHalfUntouched(orig[Idx(i, j, width, c)], i, j, c, width, height);
      }
    }
  }

  // What the pass leaves behind

  /** Every pixel on the edge of the photo half is framed. */
  lemma EdgeIsFramed(x: int, y: int, width: int, height: int)
    requires width % 4 == 0 && height % 2 == 0
    requires 0 <= x < width / 2 && 0 <= y < height
    requires x == 0 || x == width / 2 - 1 || y == 0 || y == height - 1
    ensures Border(x, y, width, height)
    ensures forall c :: 0 <= c < 3 ==> MaskedChannel(0, x, y, c, width, height) == FrameColour(c)
  {
    assert EdgeDistanceX(x, width) == 0 || EdgeDistanceY(y, height) == 0;
  }

  /** A cleared pixel is always a framed one: the corners are cut out of the frame. */
  lemma ClearedIsFramed(x: int, y: int, width: int, height: int)
    requires 0 <= x < width / 2 && 0 <= y < height
    requires Cleared(x, y, width, height)
    ensures Border(x, y, width, height)
  {
    var dx, dy := EdgeDistanceX(x, width), EdgeDistanceY(y, height);
    assert dx >= 0 && dy >= 0;
    MulNonnegInt(dx, dy);
    assert (dx + 1) * (dy + 1) == dx * dy + dx + dy + 1;
  }

  /**
   * Transparency after the pass: a pixel of the photo half is cleared exactly where
   * `Cleared` holds, and the lower-right corner of the photo half is never cleared
   * (its frame pixels are opaque).
   */
  lemma AlphaAfterMask(v: Byte, x: int, y: int, width: int, height: int)
    requires 0 <= x < width / 2 && 0 <= y < height
    ensures Cleared(x, y, width, height) ==> MaskedChannel(v, x, y, 3, width, height) == 0
    ensures !Cleared(x, y, width, height) && Border(x, y, width, height) ==> MaskedChannel(v, x, y, 3, width, height) == 255
    ensures !Border(x, y, width, height) ==> MaskedChannel(v, x, y, 3, width, height) == v
    ensures x >= width / 4 && y >= height / 2 && Border(x, y, width, height) ==> MaskedChannel(v, x, y, 3, width, height) == 255
  {
  }

  /** The extension on the right is never touched. */
  lemma RightHalfUntouched(v: Byte, x: int, y: int, c: int, width: int, height: int)
    requires x >= width / 2 && 0 <= c < 4
    ensures MaskedChannel(v, x, y, c, width, height) == v
  {
  }
}
