/** String operations the site and the optimizer script apply to image paths:
    `lastIndexOf`, `split('/')` followed by `pop()`, `includes`, and the
    regular-expression replace `/\.\w+$/` that strips a file extension. */
module PathText {

  /** `s.lastIndexOf(c)`: the position of the last `c` in `s`, or -1. */
  function LastIndexOf(s: string, c: char): (r: int)
    ensures -1 <= r < |s|
    ensures r == -1 <==> c !in s
    ensures 0 <= r ==> s[r] == c && c !in s[r + 1..]
  {
    if |s| == 0 then -1
    else if s[|s| - 1] == c then |s| - 1
    else
      var t := s[..|s| - 1];
      var r := LastIndexOf(t, c);
      assert s == t + [s[|s| - 1]];
      if r < 0 then r
      else
        assert s[r + 1..] == t[r + 1..] + [s[|s| - 1]];
        r
  }

  /** `s.split(sep)` for a one-character separator: the pieces between
      separators, in order, always at least one (possibly empty) piece.
      Defined by cutting at the last separator. */
  function Split(s: string, sep: char): (r: seq<string>)
    ensures |r| >= 1
    ensures forall i :: 0 <= i < |r| ==> sep !in r[i]
    ensures r[|r| - 1] == s[LastIndexOf(s, sep) + 1..]
    decreases |s|
  {
    var k := LastIndexOf(s, sep);
    if k < 0 then [s]
    else
      var init := Split(s[..k], sep);
      var r := init + [s[k + 1..]];
      assert forall i :: 0 <= i < |init| ==> r[i] == init[i];
      r
  }

  /** `parts.join(sep)`. */
  function Join(parts: seq<string>, sep: char): string
    requires |parts| >= 1
  {
    if |parts| == 1 then parts[0]
    else Join(parts[..|parts| - 1], sep) + [sep] + parts[|parts| - 1]
  }

  /** The last element of a non-empty list: `parts.pop()`. */
  function Last(parts: seq<string>): string
    requires |parts| >= 1
  {
    parts[|parts| - 1]
  }

  /** A string is what comes before position `k`, the character there, and
      what follows it. */
  lemma CutAt(s: string, k: int)
    requires 0 <= k < |s|
    ensures s == s[..k] + [s[k]] + s[k + 1..]
  {
  }

  /** Splitting cuts at the last separator. */
  lemma SplitAtLast(s: string, sep: char)
    requires LastIndexOf(s, sep) >= 0
    ensures var k := LastIndexOf(s, sep);
            Split(s, sep) == Split(s[..k], sep) + [s[k + 1..]]
  {
  }

  /** Joining one more piece appends the separator and that piece. */
  lemma JoinSnoc(init: seq<string>, last: string, sep: char)
    requires |init| >= 1
    ensures Join(init + [last], sep) == Join(init, sep) + [sep] + last
  {
    assert (init + [last])[..|init|] == init;
  }

  /** Splitting loses nothing: joining the pieces with the separator gives
      back the original string. */
  lemma {:induction false} JoinSplit(s: string, sep: char)
    ensures Join(Split(s, sep), sep) == s
    decreases |s|
  {
    var k := LastIndexOf(s, sep);
    if k >= 0 {
      var head, tail := s[..k], s[k + 1..];
      JoinSplit(head, sep);
      SplitAtLast(s, sep);
      JoinSnoc(Split(head, sep), tail, sep);
      CutAt(s, k);
    }
  }

  /** The file name of a path: `src.split('/').pop()`. */
  function FileName(path: string): (r: string)
    ensures '/' !in r
    ensures r == path[LastIndexOf(path, '/') + 1..]
  {
    Last(Split(path, '/'))
  }

  /** `path.substring(0, path.lastIndexOf('/'))`: everything before the
      last `/`, and the empty string when there is none (`substring(0, -1)`
      clamps the negative end to 0). */
  function Parent(path: string): (r: string)
    ensures |r| <= |path| && r == path[..|r|]
    ensures '/' in path ==> path == r + "/" + FileName(path)
    ensures '/' !in path ==> r == ""
  {
    var k := LastIndexOf(path, '/');
    if k < 0 then "" else path[..k]
  }

  /** The last separator of `dir + [sep] + name` is the one between them
      when `name` holds none. */
  lemma {:induction false} LastIndexOfJoined(dir: string, sep: char, name: string)
    requires sep !in name
    ensures LastIndexOf(dir + [sep] + name, sep) == |dir|
  {
    if |name| > 0 {
      var s := dir + [sep] + name;
      assert s[..|s| - 1] == dir + [sep] + name[..|name| - 1];
      LastIndexOfJoined(dir, sep, name[..|name| - 1]);
    }
  }

  /** `dir + "/" + name` names the entry `name` of the directory `dir`. */
  lemma ChildPath(dir: string, name: string)
    requires '/' !in name
    ensures Parent(dir + "/" + name) == dir
    ensures FileName(dir + "/" + name) == name
  {
    LastIndexOfJoined(dir, '/', name);
    var s := dir + "/" + name;
    assert s[..|dir|] == dir;
    assert s[|dir| + 1..] == name;
  }

  /** A literal ending in `/` is the same literal without it, then `/`. */
  lemma AppendSlash(head: string, withSlash: string, withoutSlash: string)
    requires withSlash == withoutSlash + "/"
    ensures head + withSlash == head + withoutSlash + "/"
  {
  }

  /** `dir + "/" + base + ".webp"` is the WebP file `base` in `dir`. */
  lemma WebpChild(path: string, dir: string, base: string)
    requires '/' !in base && path == dir + "/" + base + ".webp"
    ensures Parent(path) == dir
    ensures FileName(path) == base + ".webp"
  {
    var name := base + ".webp";
    assert '/' !in name by {
      assert name[|name| - 5..] == ".webp";
      assert name[..|name| - 5] == base;
    }
    assert dir + "/" + base + ".webp" == dir + "/" + name;
    ChildPath(dir, name);
  }

  /** `t` occurs in `s` starting at position `i`. */
  ghost predicate OccursAt(s: string, t: string, i: int) {
    0 <= i <= |s| && t <= s[i..]
  }

  /** `s.includes(t)`. */
  function Contains(s: string, t: string): (r: bool)
    ensures r <==> exists i :: OccursAt(s, t, i)
  {
    if t <= s then
      assert OccursAt(s, t, 0);
      true
    else if |s| == 0 then false
    else
      var r := Contains(s[1..], t);
      assert forall i :: OccursAt(s, t, i) ==> OccursAt(s[1..], t, i - 1) by {
        forall i | OccursAt(s, t, i) ensures OccursAt(s[1..], t, i - 1) {
          assert i != 0;
          assert s[1..][i - 1..] == s[i..];
        }
      }
      assert forall i :: OccursAt(s[1..], t, i) ==> OccursAt(s, t, i + 1) by {
        forall i | OccursAt(s[1..], t, i) ensures OccursAt(s, t, i + 1) {
          assert s[1..][i..] == s[i + 1..];
        }
      }
      r
  }

  /** The characters `\w` matches in a JavaScript regular expression without
      the `u` flag. */
  predicate IsWordChar(c: char) {
    ('a' <= c <= 'z') || ('A' <= c <= 'Z') || ('0' <= c <= '9') || c == '_'
  }

  /** The regular expression `\.\w+$` matches `s` at position `p`: a dot,
      then one or more word characters reaching the end of the string. */
  ghost predicate ExtensionMatchAt(s: string, p: int) {
    0 <= p < |s| - 1 && s[p] == '.' && forall i :: p < i < |s| ==> IsWordChar(s[i])
  }

  /** The number of word characters at the end of `s`. */
  function TrailingWordRun(s: string): (k: nat)
    ensures k <= |s|
    ensures forall i :: |s| - k <= i < |s| ==> IsWordChar(s[i])
    ensures k < |s| ==> !IsWordChar(s[|s| - k - 1])
  {
    if |s| == 0 || !IsWordChar(s[|s| - 1]) then 0
    else 1 + TrailingWordRun(s[..|s| - 1])
  }

  /** `s.replace(/\.\w+$/, '')`. */
  function StripExtension(s: string): (r: string)
    ensures |r| <= |s| && r == s[..|r|]
    ensures r != s ==> ExtensionMatchAt(s, |r|)
  {
    var k := TrailingWordRun(s);
    if 0 < k < |s| && s[|s| - k - 1] == '.' then s[..|s| - k - 1] else s
  }

  /** The regular expression matches at most once: any match begins at
      the last dot of the string. */
  lemma ExtensionMatchUnique(s: string, p: int, q: int)
    requires ExtensionMatchAt(s, p) && ExtensionMatchAt(s, q)
    ensures p == q
  {
  }

  /** When the regular expression matches at `p`, the replace removes
      exactly `s[p..]`. */
  lemma StripExtensionAtMatch(s: string, p: int)
    requires ExtensionMatchAt(s, p)
    ensures StripExtension(s) == s[..p]
  {
    var k := TrailingWordRun(s);
    assert k == |s| - p - 1;
  }

  /** When the regular expression does not match, the string is unchanged. */
  lemma StripExtensionNoMatch(s: string)
    requires forall p :: !ExtensionMatchAt(s, p)
    ensures StripExtension(s) == s
  {
  }

  /** The name `thumbOf` derives from an image path: its file name with
      the final `.`+word-characters extension removed. */
  function BaseName(src: string): (r: string)
    ensures '/' !in r
    ensures var f := src[LastIndexOf(src, '/') + 1..];
            r == f || (ExtensionMatchAt(f, |r|) && r == f[..|r|])
  {
    StripExtension(FileName(src))
  }
}
