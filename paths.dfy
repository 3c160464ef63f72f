/** Path handling the converter relies on: directories as segment lists, ASCII
    lowercasing, Python's `os.path.splitext` on a base name, the supported
    extension allowlist, and `os.path.relpath` / `os.path.join` on normalised
    absolute paths. */
module Paths {

  /** A normalised absolute directory: its segments below `/`. */
  type Dir = seq<string>

  /** A file: the directory that holds it and its base name. */
  datatype FilePath = FilePath(dir: Dir, name: string)

  /** The extensions a file may carry to be picked up, compared after lowercasing. */
  const SupportedExts: set<string> := {".jpg", ".jpeg", ".png", ".bmp", ".gif", ".tiff", ".webp"}

  function LowerChar(c: char): char
  {
    if 'A' <= c <= 'Z' then (c as int - 'A' as int + 'a' as int) as char else c
  }

  /** `str.lower()` restricted to ASCII letters. */
  function Lower(s: string): (r: string)
    ensures |r| == |s|
    ensures forall i :: 0 <= i < |s| ==> r[i] == LowerChar(s[i])
  {
    seq(|s|, i requires 0 <= i < |s| => LowerChar(s[i]))
  }

  predicate AllDots(s: string)
  {
    forall i :: 0 <= i < |s| ==> s[i] == '.'
  }

  /** Index of the last `.` in `s`, or -1 when there is none. */
  function LastDot(s: string): (r: int)
    ensures -1 <= r < |s|
    ensures 0 <= r ==> s[r] == '.'
    ensures forall k :: r < k < |s| ==> s[k] != '.'
  {
    if s == [] then -1
    else if s[|s| - 1] == '.' then |s| - 1
    else LastDot(s[..|s| - 1])
  }

  /** `os.path.splitext` of a base name: the extension runs from the last `.`,
      but only when some character other than `.` comes before that dot
      (so `.png` and `..png` have no extension). */
  function SplitExt(name: string): (r: (string, string))
    ensures r.0 + r.1 == name
    ensures r.1 != [] ==> r.1[0] == '.' && '.' !in r.1[1..] && !AllDots(r.0)
    ensures r.1 == [] <==> forall k :: 0 <= k < |name| && name[k] == '.' ==> AllDots(name[..k])
  {
    var d := LastDot(name);
    if 0 <= d && !AllDots(name[..d]) then (name[..d], name[d..]) else (name, [])
  }

  function Stem(name: string): string
  {
    SplitExt(name).0
  }

  function Extension(name: string): string
  {
    SplitExt(name).1
  }

  /** The discovery filter: the lowercased extension is in the allowlist.
      A name that passes it has an extension, after a stem that is not all
      dots. */
  predicate Qualifies(name: string)
    ensures Qualifies(name) ==> Extension(name) != [] && !AllDots(Stem(name))
  {
    Lower(Extension(name)) in SupportedExts
  }

  lemma SupportedShape(e: string)
    requires e in SupportedExts
    ensures 2 <= |e| && e[0] == '.' && '.' !in e[1..]
  {
  }

  lemma LowerCharDot(c: char)
    ensures LowerChar(c) == '.' <==> c == '.'
  {
  }

  /** A dot with no dot after it is the last dot. */
  lemma LastDotAt(s: string, k: int)
    requires 0 <= k < |s| && s[k] == '.'
    requires forall j :: k < j < |s| ==> s[j] != '.'
    ensures LastDot(s) == k
  {
  }

  /** Independent reading of the filter: some suffix, lowercased, is a
      supported extension and is preceded by at least one non-dot character. */
  lemma QualifiesIff(name: string)
    ensures Qualifies(name) <==>
      exists k :: 0 <= k < |name| && !AllDots(name[..k]) && Lower(name[k..]) in SupportedExts
  {
    var stem, ext := Stem(name), Extension(name);
    if Qualifies(name) {
      assert Lower(ext) != [];
      var k := |stem|;
      assert name[..k] == stem && name[k..] == ext;
      assert 0 <= k < |name| && !AllDots(name[..k]) && Lower(name[k..]) in SupportedExts;
    }
    if exists k :: 0 <= k < |name| && !AllDots(name[..k]) && Lower(name[k..]) in SupportedExts {
      var k :| 0 <= k < |name| && !AllDots(name[..k]) && Lower(name[k..]) in SupportedExts;
      var e := Lower(name[k..]);
      SupportedShape(e);
      LowerCharDot(name[k]);
      assert name[k] == '.' by { assert e[0] == LowerChar(name[k]); }
      forall j | k < j < |name| ensures name[j] != '.' {
        assert e[j - k] in e[1..];
        LowerCharDot(name[j]);
      }
      LastDotAt(name, k);
      assert SplitExt(name) == (name[..k], name[k..]);
    }
  }

  /** A name built from a stem that is not all dots and a dot-led suffix
      with no other dot splits back into those two parts. */
  lemma SplitExtJoin(stem: string, ext: string)
    requires !AllDots(stem)
    requires ext != [] && ext[0] == '.' && '.' !in ext[1..]
    ensures SplitExt(stem + ext) == (stem, ext)
  {
    var s := stem + ext;
    forall j | |stem| < j < |s| ensures s[j] != '.' {
      assert s[j] == ext[j - |stem|] == ext[1..][j - |stem| - 1];
    }
    LastDotAt(s, |stem|);
    assert s[..|stem|] == stem && s[|stem|..] == ext;
  }

  lemma LowerIdempotent(s: string)
    ensures Lower(Lower(s)) == Lower(s)
  {
  }

  /** Lowercasing a name first does not move its extension. */
  lemma {:induction false} SplitExtLower(name: string)
    ensures SplitExt(Lower(name)) == (Lower(Stem(name)), Lower(Extension(name)))
  {
    var low := Lower(name);
    var d := LastDot(name);
    forall j | 0 <= j < |name| ensures low[j] == '.' <==> name[j] == '.' {
      LowerCharDot(name[j]);
    }
    if 0 <= d {
      LastDotAt(low, d);
      assert low[..d] == Lower(name[..d]);
      assert low[d..] == Lower(name[d..]);
      assert AllDots(low[..d]) <==> AllDots(name[..d]);
    }
  }

  /** A leading dot does not start an extension, so these names are not kept. */
  lemma LeadingDotExamples()
    ensures Extension(".png") == [] && !Qualifies(".png")
    ensures Extension("..png") == [] && !Qualifies("..png")
  {
    var hidden, dots := ".png", "..png";
    LastDotAt(hidden, 0);
    assert AllDots(hidden[..0]);
    LastDotAt(dots, 1);
    assert dots[..1] == ".";
  }

  /** Only the last dotted part is the extension, and its case is ignored. */
  lemma LastPartExamples()
    ensures Extension("photo.tar.JPG") == ".JPG" && Qualifies("photo.tar.JPG")
    ensures Extension("scan.png.txt") == ".txt" && !Qualifies("scan.png.txt")
  {
    var photo, scan := "photo.tar.JPG", "scan.png.txt";
    LastDotAt(photo, 9);
    assert photo[..9] == "photo.tar" && photo[0] != '.';
    assert photo[9..] == ".JPG";
    assert Lower(".JPG") == ".jpg";
    LastDotAt(scan, 8);
    assert scan[..8] == "scan.png" && scan[0] != '.';
    assert scan[8..] == ".txt";
    assert Lower(".txt") == ".txt";
  }

  /** Extension matching ignores ASCII case: `photo.JPG` qualifies exactly when `photo.jpg` does. */
  lemma QualifiesCaseInsensitive(name: string)
    ensures Qualifies(Lower(name)) <==> Qualifies(name)
  {
    SplitExtLower(name);
    LowerIdempotent(Extension(name));
  }

  /** Length of the longest common prefix of two segment lists. */
  function CommonPrefixLength(a: Dir, b: Dir): (n: nat)
    ensures n <= |a| && n <= |b|
    ensures a[..n] == b[..n]
    ensures n < |a| && n < |b| ==> a[n] != b[n]
  {
    if a == [] || b == [] || a[0] != b[0] then 0
    else
      var n := 1 + CommonPrefixLength(a[1..], b[1..]);
      assert a[..n] == [a[0]] + a[1..][..n - 1];
      assert b[..n] == [b[0]] + b[1..][..n - 1];
      n
  }

  /** Whether `dir` is `root` or lies below it. */
  predicate Under(dir: Dir, root: Dir)
  {
    |root| <= |dir| && dir[..|root|] == root
  }

  /** `os.path.relpath(dir, root)`: one `..` per segment of `root` past the
      common prefix, then the rest of `dir`; the empty list stands for `.`.
      Below the root, it is the part of `dir` under the root. */
  function RelPath(dir: Dir, root: Dir): (r: seq<string>)
    ensures Under(dir, root) ==> r == dir[|root|..]
    ensures |r| + 2 * CommonPrefixLength(dir, root) == |dir| + |root|
  {
    var n := CommonPrefixLength(dir, root);
    seq(|root| - n, _ => "..") + dir[n..]
  }

  /** `os.path.join(base, rel)`; joining `.` names `base` itself. */
  function Join(base: Dir, rel: seq<string>): Dir
  {
    base + rel
  }
}
