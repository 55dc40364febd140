/**
 * The filename-as-metadata convention of halide_utils: the encoder appends
 * `_<width>x<height>.halide.bin` to the image path, the decoder reads the
 * dimensions back from the text after the last underscore and recovers the
 * image's base name from the last path segment.
 */
module Filename {
  import opened Wrappers
  import opened CxxString
  import opened CxxConvert

  const BIN_SUFFIX: string := ".halide.bin"

  /** The name `image2bin` gives the binary dump of an image of the given size. */
  function OutputName(path: string, width: int32, height: int32): (r: string)
    ensures |r| > |path| && r[..|path|] == path
    ensures FindLastOf(r, '_') == Some(|path|)
  {
    OutputNameUnderscore(path, width, height);
    path + "_" + ToString(width) + "x" + ToString(height) + BIN_SUFFIX
  }

  lemma OutputNameUnderscore(path: string, width: int32, height: int32)
    ensures var r := path + "_" + ToString(width) + "x" + ToString(height) + BIN_SUFFIX;
            |r| > |path| && r[..|path|] == path && FindLastOf(r, '_') == Some(|path|)
  {
    var tail := ToString(width) + "x" + ToString(height) + BIN_SUFFIX;
    var r := path + "_" + ToString(width) + "x" + ToString(height) + BIN_SUFFIX;
    assert r == path + "_" + tail;
    ToStringAvoids(width, '_');
    ToStringAvoids(height, '_');
    assert r[|path| + 1..] == tail;
    FindLastOfAt(r, '_', |path|);
  }

  /** Example: the dump of a 4 × 5 image `foo.png`. */
  lemma OutputNameExample()
    ensures OutputName("foo.png", 4, 5) == "foo.png_4x5.halide.bin"
  {
    assert ToString(4) == "4" && ToString(5) == "5";
  }

  /** How `GetWidthHeight` cuts a path before converting anything. */
  datatype SizeToken =
    | NoUnderscore                                  // no '_' in the path
    | NoSeparator                                   // no 'x' after the last '_'
    | Token(widthText: string, heightText: string)  // around the first 'x' after the last '_'

  /**
   * The width text runs from just after the last underscore of the whole path
   * to the first 'x' after it; the height text is everything after that 'x'.
   */
  function SplitSizeToken(path: string): (r: SizeToken)
    ensures r.NoUnderscore? <==> '_' !in path
    ensures r.NoSeparator? ==>
              FindLastOf(path, '_').Some? && 'x' !in path[FindLastOf(path, '_').value + 1..]
    ensures r.Token? ==>
              var k := |path| - |r.widthText| - |r.heightText| - 2;
              0 <= k && path[k] == '_' && path[k + 1..] == r.widthText + "x" + r.heightText
              && '_' !in path[k + 1..] && 'x' !in r.widthText
  {
    match FindLastOf(path, '_')
    case None => NoUnderscore
    case Some(u) => SplitAtX(path[u + 1..])
  }

  /** The text after the last underscore, cut at its first 'x'. */
  function SplitAtX(size: string): (r: SizeToken)
    ensures !r.NoUnderscore?
    ensures r.NoSeparator? <==> 'x' !in size
    ensures r.Token? ==> size == r.widthText + "x" + r.heightText && 'x' !in r.widthText
  {
    match Find(size, 'x')
    case None => NoSeparator
    case Some(x) =>
      assert size == size[..x] + "x" + size[x + 1..];
      Token(size[..x], size[x + 1..])
  }

  /** Why a path carries no usable size token. */
  datatype SizeError =
    | MissingUnderscore
    | MissingSeparator
    | InvalidDimension(cause: StoiError)

  /** The dimensions a split token converts to, or why it converts to none. */
  function ConvertToken(t: SizeToken): (r: Result<(int32, int32), SizeError>)
    ensures r.Ok? <==> t.Token? && Stoi(t.widthText).Ok? && Stoi(t.heightText).Ok?
  {
    match t
    case NoUnderscore => Err(MissingUnderscore)
    case NoSeparator => Err(MissingSeparator)
    case Token(w, h) =>
      match Stoi(w)
      case Err(e) => Err(InvalidDimension(e))
      case Ok(width) =>
        match Stoi(h)
        case Err(e) => Err(InvalidDimension(e))
        case Ok(height) => Ok((width, height))
  }

  /** The width and height a path encodes, or why it encodes none. */
  function ParseSize(path: string): (r: Result<(int32, int32), SizeError>)
    ensures r == Err(MissingUnderscore) <==> '_' !in path
  {
    ConvertToken(SplitSizeToken(path))
  }

  /** How a C++ call ends: it returns a value or it throws. */
  datatype Completion = Returned(code: int) | Threw(error: StoiError)

  /**
   * `GetWidthHeight(path, width, height)`: the reference parameters come in as
   * `width`, `height` and go out as `width'`, `height'`. They are overwritten
   * only when the path has a token; without one they keep their values and the
   * call still returns 0. A conversion failure escapes as an exception, after
   * the width has already been stored if its own conversion succeeded.
   */
  method GetWidthHeight(path: string, width: int32, height: int32)
    returns (c: Completion, width': int32, height': int32)
    ensures c.Returned? ==> c.code == 0
    ensures match ParseSize(path)
      case Ok(dims) => c == Returned(0) && (width', height') == dims
      case Err(InvalidDimension(e)) =>
        c == Threw(e) && height' == height &&
        width' == (match Stoi(SplitSizeToken(path).widthText) case Ok(w) => w case Err(_) => width)
      case Err(_) => c == Returned(0) && width' == width && height' == height
  {
    c, width', height' := Returned(0), width, height;
    var underscorePos := FindLastOf(path, '_');
    if underscorePos.Some? {
      var sizeSubstring := path[underscorePos.value + 1..];
      var xPos := Find(sizeSubstring, 'x');
      if xPos.Some? {
        var widthStr := sizeSubstring[..xPos.value];
        var heightStr := sizeSubstring[xPos.value + 1..];
        ghost var t := SplitSizeToken(path);
        assert t == Token(widthStr, heightStr);
        var w := Stoi(widthStr);
        if w.Err? {
          assert ConvertToken(t) == Err(InvalidDimension(w.error));
          return Threw(w.error), width', height';
        }
        width' := w.value;
        var h := Stoi(heightStr);
        if h.Err? {
          assert ConvertToken(t) == Err(InvalidDimension(h.error));
          return Threw(h.error), width', height';
        }
        height' := h.value;
        assert ConvertToken(t) == Ok((width', height'));
      } else {
        assert ParseSize(path) == Err(MissingSeparator);
      }
    }
  }

  /**
   * Only the text after the last underscore decides the size: whatever comes
   * before it, underscores and 'x' included, is ignored.
   */
  lemma ParseSizeUsesLastUnderscore(dir: string, token: string)
    requires '_' !in token
    ensures ParseSize(dir + "_" + token) == ParseSize("_" + token)
  {
    SplitSizeTokenAfter(dir, token);
    var q := "_" + token;
    assert q[1..] == token;
    FindLastOfAt(q, '_', 0);
  }

  /** With no underscore in `token`, the size token of `<dir>_<token>` is cut from `token` alone. */
  lemma SplitSizeTokenAfter(dir: string, token: string)
    requires '_' !in token
    ensures SplitSizeToken(dir + "_" + token) == SplitAtX(token)
  {
    var p := dir + "_" + token;
    assert p[|dir| + 1..] == token;
    FindLastOfAt(p, '_', |dir|);
  }

  /**
   * A name of the form `<base>_<W>x<H><ext>` parses to W and H whenever the
   * extension has no underscore and does not start with a digit.
   */
  lemma {:induction false} ParseSizeOfToken(base: string, width: int32, height: int32, ext: string)
    requires '_' !in ext
    requires ext == [] || !IsDigit(ext[0])
    ensures ParseSize(base + "_" + ToString(width) + "x" + ToString(height) + ext) == Ok((width, height))
  {
    var tw, th := ToString(width), ToString(height);
    ToStringAvoids(width, '_');
    ToStringAvoids(height, '_');
    ToStringAvoids(width, 'x');
    assert base + "_" + tw + "x" + th + ext == base + "_" + tw + "x" + (th + ext);
    SplitSizeTokenOf(base, tw, th + ext);
    StoiToString(width, []);
    assert tw + [] == tw;
    StoiToString(height, ext);
  }

  /** The split of `<base>_<w>x<h>`, when `w` has no 'x' and neither part has an underscore. */
  lemma SplitSizeTokenOf(base: string, w: string, h: string)
    requires '_' !in w && '_' !in h && 'x' !in w
    ensures SplitSizeToken(base + "_" + w + "x" + h) == Token(w, h)
  {
    assert base + "_" + w + "x" + h == base + "_" + (w + "x" + h);
    assert '_' !in w + "x" + h;
    SplitSizeTokenAfter(base, w + "x" + h);
    SplitAtXOf(w, h);
  }

  /** The first 'x' of `<w>x<h>` is the one after `w` when `w` has none. */
  lemma SplitAtXOf(w: string, h: string)
    requires 'x' !in w
    ensures SplitAtX(w + "x" + h) == Token(w, h)
  {
    var size := w + "x" + h;
    assert size[..|w|] == w;
    FindAt(size, 'x', |w|);
    assert size[|w| + 1..] == h;
  }

  /**
   * Round trip: reading the size back from the name the encoder built yields
   * exactly the dimensions the encoder wrote, for every pair of `int` values.
   */
  lemma {:induction false} ParseSizeOfOutputName(path: string, width: int32, height: int32)
    ensures ParseSize(OutputName(path, width, height)) == Ok((width, height))
  {
    assert '_' !in BIN_SUFFIX && !IsDigit(BIN_SUFFIX[0]);
    ParseSizeOfToken(path, width, height, BIN_SUFFIX);
  }

  /** Example: the last underscore wins, and the height stops at the extension. */
  lemma ParseSizeExample()
    ensures ParseSize("a_b_10x20.bin") == Ok((10, 20))
  {
    assert ToString(10) == "10" && ToString(20) == "20";
    assert "a_b_10x20.bin" == "a_b" + "_" + ToString(10) + "x" + ToString(20) + ".bin";
    ParseSizeOfToken("a_b", 10, 20, ".bin");
  }

  /** `s` without one trailing '/', if it has one. */
  function TrimSlash(s: string): (r: string)
    ensures r == s || (s == r + "/")
    ensures r == [] || r[|r| - 1] != '/' || (r != s && r + "/" == s)
  {
    if s != [] && s[|s| - 1] == '/' then s[..|s| - 1] else s
  }

  /** The text after the last '/' of `s`, all of `s` when it has none. */
  function AfterLastSlash(s: string): (r: string)
    ensures '/' !in r
    ensures |r| <= |s| && s[|s| - |r|..] == r
    ensures |r| < |s| ==> s[|s| - |r| - 1] == '/'
  {
    match FindLastOf(s, '/')
    case None => s
    case Some(k) => s[k + 1..]
  }

  /** The last '/'-separated token `std::getline(ss, token, '/')` produces, or "" if none. */
  function LastSegment(path: string): (r: string)
    ensures '/' !in r
  {
    AfterLastSlash(TrimSlash(path))
  }

  /** `s` cut just before its last underscore; all of `s` when it has none. */
  function CutAtLastUnderscore(s: string): (r: string)
    ensures r <= s
    ensures '_' !in s ==> r == s
    ensures '_' in s ==> |r| < |s| && s[|r|] == '_' && '_' !in s[|r| + 1..]
  {
    match FindLastOf(s, '_')
    case None => s
    case Some(k) => s[..k]
  }

  /** The base name `GetFilePrefix` recovers from a path. */
  function FilePrefix(path: string): (r: string)
    ensures '/' !in r
    ensures r <= LastSegment(path)
  {
    CutAtLastUnderscore(LastSegment(path))
  }

  /** Everything up to and including a '/' is invisible to `AfterLastSlash`. */
  lemma AfterLastSlashSkips(a: string, b: string)
    requires a != [] && a[|a| - 1] == '/'
    ensures AfterLastSlash(a + b) == AfterLastSlash(b)
  {
    FindLastOfAppend(a, b, '/');
    if '/' in b {
      var m := FindLastOf(b, '/').value;
      assert (a + b)[|a| + m + 1..] == b[m + 1..];
    } else {
      FindLastOfAt(a, '/', |a| - 1);
      assert (a + b)[|a|..] == b;
    }
  }

  /** Appending text without '/' extends the last segment. */
  lemma AfterLastSlashExtends(a: string, b: string)
    requires '/' !in b
    ensures AfterLastSlash(a + b) == AfterLastSlash(a) + b
  {
    FindLastOfAppend(a, b, '/');
    if '/' in a {
      var k := FindLastOf(a, '/').value;
      assert (a + b)[k + 1..] == a[k + 1..] + b;
    }
  }

  /**
   * One `getline` step on the unread text `rest`: the token up to the first
   * '/' is the last segment when only that '/' follows it; otherwise the last
   * segment lies in the text after the '/'.
   */
  lemma LastSegmentSlashStep(rest: string, j: nat)
    requires j < |rest| && rest[j] == '/' && '/' !in rest[..j]
    ensures j + 1 == |rest| ==> LastSegment(rest) == rest[..j]
    ensures j + 1 < |rest| ==> LastSegment(rest) == LastSegment(rest[j + 1..])
  {
    var t, r := rest[..j] + "/", rest[j + 1..];
    assert rest == t + r;
    if r == [] {
      assert TrimSlash(rest) == rest[..j];
    } else {
      assert TrimSlash(rest) == t + TrimSlash(r) by {
        if r[|r| - 1] == '/' {
          assert rest[..|rest| - 1] == t + r[..|r| - 1];
        }
      }
      AfterLastSlashSkips(t, TrimSlash(r));
    }
  }

  /**
   * `GetFilePrefix(path)`: split the path on '/' with `getline`, keep the last
   * token, then cut it at its last underscore. `unread` is what the string
   * stream has not yet consumed; `getline` fails once nothing is left.
   */
  method GetFilePrefix(path: string) returns (prefix: string)
    ensures prefix == FilePrefix(path)
  {
    var unread := path;
    prefix := "";
    while unread != []
      invariant (if unread == [] then prefix else LastSegment(unread)) == LastSegment(path)
      decreases |unread|
    {
      var token;
      match Find(unread, '/') {
        case None =>
          LastSegmentNoSlash(unread);
          token, unread := unread, [];
        case Some(j) =>
          LastSegmentSlashStep(unread, j);
          token, unread := unread[..j], unread[j + 1..];
      }
      prefix := token;
    }
    var dotPos := FindLastOf(prefix, '_');
    if dotPos.Some? {
      prefix := prefix[..dotPos.value];
    }
  }

  /** The last token of text without any '/' is the text itself. */
  lemma LastSegmentNoSlash(rest: string)
    requires rest != [] && '/' !in rest
    ensures LastSegment(rest) == rest
  {
    assert rest[|rest| - 1] in rest;
  }

  /** Cutting `<base>_<rest>` at its last underscore gives `base` when `rest` has none. */
  lemma CutAtLastUnderscoreOf(base: string, rest: string)
    requires '_' !in rest
    ensures CutAtLastUnderscore(base + "_" + rest) == base
  {
    var s := base + "_" + rest;
    assert s[|base| + 1..] == rest;
    FindLastOfAt(s, '_', |base|);
    assert s[..|base|] == base;
  }

  /**
   * Round trip: the prefix recovered from the encoder's output name is the
   * original file's last path segment; a path ending in '/' yields "".
   */
  lemma FilePrefixOfOutputName(path: string, width: int32, height: int32)
    ensures path == [] || path[|path| - 1] != '/' ==>
              FilePrefix(OutputName(path, width, height)) == LastSegment(path)
    ensures path != [] && path[|path| - 1] == '/' ==>
              FilePrefix(OutputName(path, width, height)) == ""
  {
    var rest := ToString(width) + "x" + ToString(height) + BIN_SUFFIX;
    OutputNameRest(width, height);
    assert OutputName(path, width, height) == path + "_" + rest;
    FilePrefixOfSuffixed(path, rest);
  }

  /** The prefix of `<path>_<rest>` is the text after the last '/' of `path`. */
  lemma FilePrefixOfSuffixed(path: string, rest: string)
    requires '_' !in rest && '/' !in rest
    ensures path == [] || path[|path| - 1] != '/' ==> FilePrefix(path + "_" + rest) == LastSegment(path)
    ensures path != [] && path[|path| - 1] == '/' ==> FilePrefix(path + "_" + rest) == ""
  {
    var name := path + "_" + rest;
    assert name == path + ("_" + rest);
    assert name[|name| - 1] in "_" + rest;
    assert TrimSlash(name) == name;
    AfterLastSlashExtends(path, "_" + rest);
    assert AfterLastSlash(path) + ("_" + rest) == AfterLastSlash(path) + "_" + rest;
    CutAtLastUnderscoreOf(AfterLastSlash(path), rest);
  }

  /** What the encoder appends after its underscore holds no '_', no '/', and does not end in '/'. */
  lemma OutputNameRest(width: int32, height: int32)
    ensures var rest := ToString(width) + "x" + ToString(height) + BIN_SUFFIX;
            '_' !in rest && '/' !in rest
  {
    ToStringAvoids(width, '/');
    ToStringAvoids(height, '/');
    ToStringAvoids(width, '_');
    ToStringAvoids(height, '_');
  }

  /** Example: the base name of a dump stored in a directory. */
  lemma FilePrefixExample()
    ensures FilePrefix("/a/b/foo_4x5.halide.bin") == "foo"
  {
    var dir, base := "/a/b/", "foo";
    assert ToString(4) == "4" && ToString(5) == "5";
    assert "/a/b/foo_4x5.halide.bin" == dir + base + "_" + "4" + "x" + "5" + BIN_SUFFIX;
    FilePrefixOfOutputName(dir + base, 4, 5);
    AfterLastSlashSkips(dir, base);
    assert '/' !in base;
  }
}
