/** The part of Python's `pathlib.PurePosixPath` the jukebox uses: parsing a
    string into a root and its parts, rendering with `str()`, joining with `/`,
    `is_absolute()`, and the `name`, `stem` and `suffix` of a file name. */
module PosixPath {
  import opened Text

  /** A parsed path: its root ("", "/" or "//") and its parts, none of them
      empty or ".". */
  datatype PurePath = PurePath(root: string, parts: seq<string>)

  predicate ValidPart(p: string)
  {
    p != [] && p != "." && '/' !in p
  }

  /** What every parsed path looks like. */
  predicate Canonical(p: PurePath)
  {
    (p.root == "" || p.root == "/" || p.root == "//")
    && forall i :: 0 <= i < |p.parts| ==> ValidPart(p.parts[i])
  }

  /** POSIX `splitroot`: exactly two leading slashes are kept, one or three
      and more become one. */
  function RootOf(s: string): string
  {
    if |s| >= 2 && s[0] == '/' && s[1] == '/' && (|s| == 2 || s[2] != '/') then "//"
    else if |s| >= 1 && s[0] == '/' then "/"
    else ""
  }

  /** Drops the empty and "." pieces of a split; the pieces of a split on '/'
      never contain '/', so this is Python's `if x and x != '.'`. */
  function KeepParts(xs: seq<string>): (r: seq<string>)
    ensures forall i :: 0 <= i < |r| ==> ValidPart(r[i])
  {
    if xs == [] then []
    else (if ValidPart(xs[0]) then [xs[0]] else []) + KeepParts(xs[1..])
  }

  /** `PurePosixPath(s)`. */
  function Parse(s: string): (p: PurePath)
    ensures Canonical(p)
    ensures IsAbsolute(p) <==> |s| > 0 && s[0] == '/'
  {
    PurePath(RootOf(s), KeepParts(SplitOn(s, '/')))
  }

  /** `str(path)`: the root followed by the parts joined with '/', or "." for
      the empty relative path. */
  function Str(p: PurePath): (s: string)
    ensures Canonical(p) ==> s != []
    ensures Canonical(p) ==> (s[0] == '/' <==> IsAbsolute(p))
  {
    if p.root == "" && p.parts == [] then "."
    else if p.parts != [] && p.parts[0] != [] then
      JoinWithHead(p.parts, '/');
      assert p.parts[0][0] in p.parts[0];
      p.root + JoinWith(p.parts, '/')
    else p.root + JoinWith(p.parts, '/')
  }

  /** `a / b`: an absolute right operand replaces the left one. */
  function Join(a: PurePath, b: PurePath): (r: PurePath)
    ensures Canonical(a) && Canonical(b) ==> Canonical(r)
    ensures IsAbsolute(r) <==> IsAbsolute(a) || IsAbsolute(b)
    ensures !IsAbsolute(b) ==> r.parts == a.parts + b.parts
  {
    if b.root != "" then b else PurePath(a.root, a.parts + b.parts)
  }

  predicate IsAbsolute(p: PurePath)
  {
    p.root != ""
  }

  lemma {:induction false} KeepPartsAppend(a: seq<string>, b: seq<string>)
    ensures KeepParts(a + b) == KeepParts(a) + KeepParts(b)
  {
    if a != [] {
      KeepPartsAppend(a[1..], b);
      assert (a + b)[1..] == a[1..] + b;
    } else {
      assert a + b == b;
    }
  }

  lemma {:induction false} KeepValidParts(xs: seq<string>)
    requires forall i :: 0 <= i < |xs| ==> ValidPart(xs[i])
    ensures KeepParts(xs) == xs
  {
    if xs != [] {
      KeepValidParts(xs[1..]);
    }
  }

  lemma JoinWithHead(parts: seq<string>, sep: char)
    requires parts != [] && parts[0] != []
    ensures JoinWith(parts, sep) != [] && JoinWith(parts, sep)[0] == parts[0][0]
  {
  }

  lemma {:induction false} JoinWithSnoc(parts: seq<string>, x: string, sep: char)
    requires parts != []
    ensures JoinWith(parts + [x], sep) == JoinWith(parts, sep) + [sep] + x
  {
    if |parts| > 1 {
      JoinWithSnoc(parts[1..], x, sep);
      assert (parts + [x])[1..] == parts[1..] + [x];
    }
  }

  /** Rendering a parsed path and parsing it again changes nothing. */
  lemma ParseStr(p: PurePath)
    requires Canonical(p)
    ensures Parse(Str(p)) == p
  {
    var s := Str(p);
    if p.root == "" && p.parts == [] {
      SplitOnPlain(".", '/');
    } else {
      var j := JoinWith(p.parts, '/');
      assert s == p.root + j;
      var pieces: seq<string> := if p.parts == [] then [[]] else p.parts;
      assert SplitOn(j, '/') == pieces by {
        if p.parts != [] {
          SplitJoin(p.parts, '/');
        }
      }
      KeepValidParts(p.parts);
      if p.parts != [] {
        JoinWithHead(p.parts, '/');
        assert p.parts[0][0] in p.parts[0];
        assert j[0] != '/';
      }
      if p.root == "" {
        assert s == j;
      } else if p.root == "/" {
        assert s == ['/'] + j;
        assert s[1..] == j;
        KeepPartsAppend([[]], pieces);
      } else {
        assert s == ['/', '/'] + j;
        assert s[1..] == ['/'] + j;
        assert s[2..] == j;
        assert SplitOn(s, '/') == [[]] + SplitOn(s[1..], '/');
        assert SplitOn(s[1..], '/') == [[]] + SplitOn(j, '/');
        assert |s| == 2 || s[2] == j[0];
        KeepPartsAppend([[]], [[]] + pieces);
        KeepPartsAppend([[]], pieces);
      }
    }
  }

  /** A relative file name is parsed into a single part. */
  lemma ParsePlainName(name: string)
    requires ValidPart(name)
    ensures Parse(name) == PurePath("", [name])
  {
    SplitOnPlain(name, '/');
    KeepValidParts([name]);
    assert name[0] in name;
  }

  /** Joining a folder with a plain file name puts the name after a '/'. */
  lemma JoinPlainName(folder: PurePath, name: string)
    requires folder.parts != [] && ValidPart(name)
    ensures Str(Join(folder, Parse(name))) == Str(folder) + "/" + name
  {
    ParsePlainName(name);
    JoinWithSnoc(folder.parts, name, '/');
  }

  /** The last part of a path (`path.name`). */
  function Name(p: PurePath): string
  {
    if p.parts == [] then "" else p.parts[|p.parts| - 1]
  }

  /** `path.suffix` of a file name: from its last '.' on, unless that dot is
      the first or the last character. */
  function Suffix(name: string): (r: string)
    ensures r == [] || (r[0] == '.' && |r| >= 2 && '.' !in r[1..])
    ensures |r| < |name| || r == []
    ensures r == name[|name| - |r|..]
    ensures r != [] <==> exists i :: 0 < i < |name| - 1 && name[i] == '.' && '.' !in name[i + 1..]
  {
    var i := RFind(name, '.');
    SuffixDot(name);
    if 0 < i < |name| - 1 then
      AfterLastSpec(name, '.');
      name[i..]
    else ""
  }

  /** A name has a suffix exactly when its last '.' is neither its first nor
      its last character. */
  lemma SuffixDot(name: string)
    ensures (exists i :: 0 < i < |name| - 1 && name[i] == '.' && '.' !in name[i + 1..])
            <==> 0 < RFind(name, '.') < |name| - 1
  {
    var i := RFind(name, '.');
    if exists j :: 0 < j < |name| - 1 && name[j] == '.' && '.' !in name[j + 1..] {
      var j :| 0 < j < |name| - 1 && name[j] == '.' && '.' !in name[j + 1..];
      RFindLast(name, '.', j);
    }
    if 0 < i < |name| - 1 {
      AfterLastSpec(name, '.');
      assert name[i] == '.' && '.' !in name[i + 1..];
    }
  }

  /** `path.stem` of a file name: the name without its suffix. */
  function Stem(name: string): (r: string)
    ensures |r| <= |name| && r == name[..|r|]
    ensures name != [] ==> r != []
  {
    var i := RFind(name, '.');
    if 0 < i < |name| - 1 then name[..i] else name
  }

  /** The stem and the suffix split the name. */
  lemma StemSuffix(name: string)
    ensures Stem(name) + Suffix(name) == name
  {
    var i := RFind(name, '.');
    if 0 < i < |name| - 1 {
      assert name[..i] + name[i..] == name;
    }
  }
}
