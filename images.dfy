/**
 * Best-effort image loading (`load_local_image`) and the figure a popup
 * section ends up showing. The filesystem is a map from path to what the
 * file decodes to; a path is "existing" exactly when it is a key. Pillow's
 * decoding and resampling are not modelled, only the sizes they produce
 * and the cases in which they raise.
 */
module Images {
  import opened Wrappers
  import opened PyInt

  type Path = string

  /** Pixel size of an image or of one frame. */
  datatype Dims = Dims(width: nat, height: nat)

  /** What Pillow makes of a file: nothing usable, or one or more frames. */
  datatype Content = Undecodable | Picture(first: Dims, more: seq<Dims>)
  {
    function Frames(): (frames: seq<Dims>)
      requires Picture?
      ensures |frames| == 1 + |more| && frames[0] == first
    {
      [first] + more
    }
  }

  type Disk = map<Path, Content>

  /** Width of the figures in the two process windows. */
  const ProcessImageWidth: nat := 350
  /** Width of the figure in a single-technique window. */
  const TechImageWidth: nat := 300

  /** `os.path.join(dir, name)` for a relative name, with POSIX separators. */
  function Join(dir: string, name: string): (p: Path)
    ensures |p| == |dir| + 1 + |name| && p[|dir|] == '/'
    ensures p[..|dir|] == dir && p[|dir| + 1..] == name
  {
    dir + "/" + name
  }

  function LowerChar(c: char): (l: char)
    ensures 'A' <= c <= 'Z' ==> l as int == c as int + 32
    ensures !('A' <= c <= 'Z') ==> l == c
  {
    if 'A' <= c <= 'Z' then (c as int + 32) as char else c
  }

  /** `s.lower()`, with ASCII case folding. */
  function Lower(s: string): (l: string)
    ensures |l| == |s|
    ensures forall i :: 0 <= i < |s| ==> l[i] == LowerChar(s[i])
  {
    seq(|s|, i requires 0 <= i < |s| => LowerChar(s[i]))
  }

  /** `name.lower().endswith('.gif')`: the last four characters, folded, are `.gif`. */
  function IsGifName(name: string): (gif: bool)
    ensures gif <==> |name| >= 4 && Lower(name)[|name| - 4..] == ".gif"
  {
    if |name| < 4 then false
    else
      var tail := Lower(name)[|name| - 4..];
      assert forall k :: 0 <= k < 4 ==> tail[k] == LowerChar(name[|name| - 4 + k]);
      LowerChar(name[|name| - 4]) == '.' && LowerChar(name[|name| - 3]) == 'g'
      && LowerChar(name[|name| - 2]) == 'i' && LowerChar(name[|name| - 1]) == 'f'
  }

  /** `int(width * h / w)`: the height that keeps the aspect ratio at the new width. */
  function ResizedHeight(width: nat, original: Dims): (height: nat)
    requires original.width > 0
    ensures height * original.width <= width * original.height < (height + 1) * original.width
  {
    assert width * original.height >= 0;
    TruncDiv(width * original.height, original.width)
  }

  /**
   * `img.resize((width, int(width * img.height / img.width)), LANCZOS)`.
   * None where Python raises: a zero-width original divides by zero, and
   * Pillow refuses a target size with a zero side.
   */
  function Resize(original: Dims, width: nat): (r: Option<Dims>)
    ensures r.Some? <==> original.width > 0 && width > 0 && width * original.height >= original.width
    ensures r.Some? ==> r.value.width == width
    ensures r.Some? ==> r.value.height * original.width <= width * original.height
                                                      < (r.value.height + 1) * original.width
  {
    if original.width == 0 then None
    else
      var height := ResizedHeight(width, original);
      assert height >= 1 ==> width * original.height >= original.width by {
        if height >= 1 { MulMono(1, height, original.width); }
      }
      if width == 0 || height == 0 then None else Some(Dims(width, height))
  }

  /** Resizing an image to its own width gives it back unchanged. */
  lemma ResizeToOwnWidth(d: Dims)
    requires d.width > 0 && d.height > 0
    ensures Resize(d, d.width) == Some(d)
  {
    assert d.width * d.height == d.height * d.width;
    TruncDivExact(d.height, d.width);
  }

  /**
   * `load_local_image(path, width)`: the first frame resized to `width`,
   * or None on any failure; it never raises. The `.gif` branch takes the
   * first frame of the frame sequence and the other branch the image as
   * opened, which is also its first frame, so both branches are one case
   * here.
   */
  function LoadLocalImage(disk: Disk, path: Path, width: nat): (r: Option<Dims>)
    ensures r.Some? <==> path in disk && disk[path].Picture? && Resize(disk[path].first, width).Some?
    ensures r.Some? ==> r.value.width == width
    ensures r.Some? ==> r == Resize(disk[path].first, width)
  {
    if path !in disk then None
    else match disk[path]
      case Undecodable => None
      case Picture(first, _) => Resize(first, width)
  }

  /** What a popup section shows on the right of its text. */
  datatype Figure =
    | NoFigure
    | Still(image: Dims)
    | AnimatedLabel(source: Path, width: nat)  // a label driven by an AnimatedGIF on that file

  /**
   * The figure of one step in `open_litho_process` / `open_char_process`:
   * nothing for a missing file; for an existing `.gif`, always a label with
   * an animation attached (even when the file then fails to decode);
   * otherwise the loaded still, if it loaded.
   */
  function ProcessFigure(disk: Disk, dir: string, name: string): (f: Figure)
    ensures Join(dir, name) !in disk ==> f == NoFigure
    ensures f.AnimatedLabel? <==> Join(dir, name) in disk && IsGifName(name)
    ensures f.AnimatedLabel? ==> f.source == Join(dir, name) && f.width == ProcessImageWidth
    ensures f.Still? <==> !IsGifName(name) && LoadLocalImage(disk, Join(dir, name), ProcessImageWidth).Some?
    ensures f.Still? ==> f.image.width == ProcessImageWidth
    ensures f.Still? ==> Some(f.image) == LoadLocalImage(disk, Join(dir, name), ProcessImageWidth)
  {
    var path := Join(dir, name);
    if path !in disk then NoFigure
    else if IsGifName(name) then AnimatedLabel(path, ProcessImageWidth)
    else match LoadLocalImage(disk, path, ProcessImageWidth)
      case None => NoFigure
      case Some(image) => Still(image)
  }

  /**
   * The figure of a `create_tech_window` popup: a still (for a `.gif`, its
   * first frame) when the file exists and loads, otherwise nothing.
   */
  function TechFigure(disk: Disk, dir: string, name: string): (f: Figure)
    ensures !f.AnimatedLabel?
    ensures f.Still? <==> LoadLocalImage(disk, Join(dir, name), TechImageWidth).Some?
    ensures f.Still? ==> f.image.width == TechImageWidth
    ensures f.Still? ==> Some(f.image) == LoadLocalImage(disk, Join(dir, name), TechImageWidth)
  {
    var path := Join(dir, name);
    if path !in disk then NoFigure
    else match LoadLocalImage(disk, path, TechImageWidth)
      case None => NoFigure
      case Some(image) => Still(image)
  }

  /** The figures of a list of steps, in order. */
  function ProcessFigures(disk: Disk, dir: string, names: seq<string>): (fs: seq<Figure>)
    ensures |fs| == |names|
    ensures forall i :: 0 <= i < |names| ==> fs[i] == ProcessFigure(disk, dir, names[i])
  {
    if names == [] then [] else [ProcessFigure(disk, dir, names[0])] + ProcessFigures(disk, dir, names[1..])
  }

  /** Number of steps that end up with some figure. */
  function FigureCount(fs: seq<Figure>): (n: nat)
    ensures n <= |fs|
  {
    if fs == [] then 0 else (if fs[0] == NoFigure then 0 else 1) + FigureCount(fs[1..])
  }

  /**
   * Steps whose file is missing never show a figure: when m of the files
   * are missing and every other one is a `.gif` or loads, exactly
   * |names| - m figures appear.
   */
  lemma {:induction false} FiguresOfPresentFiles(disk: Disk, dir: string, names: seq<string>)
    requires forall i :: 0 <= i < |names| && Join(dir, names[i]) in disk ==>
               IsGifName(names[i]) || LoadLocalImage(disk, Join(dir, names[i]), ProcessImageWidth).Some?
    ensures FigureCount(ProcessFigures(disk, dir, names)) == |names| - MissingCount(disk, dir, names)
  {
    if names != [] {
      var fs := ProcessFigures(disk, dir, names);
      assert fs[1..] == ProcessFigures(disk, dir, names[1..]);
      FiguresOfPresentFiles(disk, dir, names[1..]);
    }
  }

  function MissingCount(disk: Disk, dir: string, names: seq<string>): (m: nat)
    ensures m <= |names|
  {
    if names == [] then 0
    else (if Join(dir, names[0]) in disk then 0 else 1) + MissingCount(disk, dir, names[1..])
  }
}
