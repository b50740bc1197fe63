/**
 Java string operations the loaders rely on, over `string` (= `seq<char>`):
 `String.lastIndexOf(char)`, `String.replace(char, char)`, `String.startsWith`
 and `String.split` with a single literal separator character.
 */
module Strings {

  import opened Wrappers

  /** `s.lastIndexOf(c)`: the index of the last occurrence of `c`, or -1. */
  function LastIndexOf(s: string, c: char): (i: int)
    ensures -1 <= i < |s|
    ensures i >= 0 ==> s[i] == c
    ensures forall j :: i < j < |s| ==> s[j] != c
  {
    if |s| == 0 then -1
    else if s[|s| - 1] == c then |s| - 1
    else LastIndexOf(s[..|s| - 1], c)
  }

  /**
   `pkg` is the part of `name` before its last `.`: a prefix of `name`
   followed by a dot, with no dot after that one.
   */
  predicate IsPackageOf(pkg: string, name: string)
  {
    |pkg| < |name| && name[..|pkg|] == pkg && name[|pkg|] == '.' && '.' !in name[|pkg| + 1..]
  }

  /**
   `name.substring(0, name.lastIndexOf('.'))`, or `None` when the name has no
   dot at all.
   */
  function PackageName(name: string): (pkg: Option<string>)
    ensures pkg.None? <==> '.' !in name
    ensures pkg.Some? ==> IsPackageOf(pkg.value, name)
  {
    var i := LastIndexOf(name, '.');
    if i == -1 then None else Some(name[..i])
  }

  /** A name has at most one package: the last dot is unique. */
  lemma PackageOfUnique(name: string, p: string, q: string)
    requires IsPackageOf(p, name) && IsPackageOf(q, name)
    ensures p == q
  {
  }

  /** `s.replace(from, to)`: every `from` character becomes `to`. */
  function Replace(s: string, from: char, to: char): (r: string)
    ensures |r| == |s|
    ensures forall i :: 0 <= i < |s| ==> r[i] == (if s[i] == from then to else s[i])
  {
    if |s| == 0 then []
    else [if s[0] == from then to else s[0]] + Replace(s[1..], from, to)
  }

  /** After a replacement, no `from` character is left (unless it is also the target). */
  lemma ReplaceRemovesAll(s: string, from: char, to: char)
    requires from != to
    ensures from !in Replace(s, from, to)
  {
  }

  /** Replacing is idempotent. */
  lemma ReplaceIdempotent(s: string, from: char, to: char)
    ensures Replace(Replace(s, from, to), from, to) == Replace(s, from, to)
  {
  }

  /** `s.startsWith(p)` */
  predicate StartsWith(s: string, p: string)
  {
    |p| <= |s| && s[..|p|] == p
  }

  /**
   The pieces of `s` between occurrences of `sep`, trailing empty pieces
   included: `n` separators give `n + 1` pieces.
   */
  function Pieces(s: string, sep: char): (ps: seq<string>)
    ensures |ps| >= 1
    ensures forall k :: 0 <= k < |ps| ==> sep !in ps[k]
    decreases |s|
  {
    if |s| == 0 then [""]
    else
      var rest := Pieces(s[1..], sep);
      if s[0] == sep then [""] + rest
      else [[s[0]] + rest[0]] + rest[1..]
  }

  /** The pieces glued back together with `sep` between consecutive ones. */
  function Join(ps: seq<string>, sep: char): string
  {
    if |ps| == 0 then ""
    else if |ps| == 1 then ps[0]
    else ps[0] + [sep] + Join(ps[1..], sep)
  }

  /** Removes the empty strings at the end of a list. */
  function DropTrailingEmpty(ps: seq<string>): (qs: seq<string>)
    ensures |qs| <= |ps| && qs == ps[..|qs|]
    ensures |qs| > 0 ==> qs[|qs| - 1] != ""
    ensures forall k :: |qs| <= k < |ps| ==> ps[k] == ""
  {
    if |ps| == 0 then []
    else if ps[|ps| - 1] == "" then DropTrailingEmpty(ps[..|ps| - 1])
    else ps
  }

  /** Removes the `sep` characters at the end of a string. */
  function StripTrailing(s: string, sep: char): (t: string)
    ensures |t| <= |s| && t == s[..|t|]
    ensures |t| > 0 ==> t[|t| - 1] != sep
  {
    if |s| == 0 then ""
    else if s[|s| - 1] == sep then StripTrailing(s[..|s| - 1], sep)
    else s
  }

  /**
   `s.split(sep)` with limit 0, for a separator that is not a regular
   expression metacharacter: when `sep` does not occur the result is `[s]`
   itself (so `""` splits into one empty string); otherwise the pieces with
   the trailing empty ones removed (so `":"` splits into nothing).
   */
  function Split(s: string, sep: char): (parts: seq<string>)
    ensures forall k :: 0 <= k < |parts| ==> sep !in parts[k]
  {
    if sep !in s then [s] else DropTrailingEmpty(Pieces(s, sep))
  }

  /** Joining the pieces restores the string exactly. */
  lemma {:induction false} JoinPieces(s: string, sep: char)
    ensures Join(Pieces(s, sep), sep) == s
    decreases |s|
  {
    if |s| == 0 {
    } else {
      var rest := Pieces(s[1..], sep);
      JoinPieces(s[1..], sep);
      assert s == [s[0]] + s[1..];
      if s[0] == sep {
        assert Pieces(s, sep) == [""] + rest;
        assert ([""] + rest)[1..] == rest;
      } else {
        var ps := Pieces(s, sep);
        assert ps == [[s[0]] + rest[0]] + rest[1..];
        if |rest| == 1 {
          assert ps == [[s[0]] + rest[0]];
        } else {
          assert ps[1..] == rest[1..];
          assert Join(rest, sep) == rest[0] + [sep] + Join(rest[1..], sep);
          assert Join(ps, sep) == ([s[0]] + rest[0]) + [sep] + Join(rest[1..], sep);
        }
      }
    }
  }

  /** Joining a list with one more element adds a separator and that element. */
  lemma {:induction false} JoinSnoc(ps: seq<string>, x: string, sep: char)
    requires |ps| > 0
    ensures Join(ps + [x], sep) == Join(ps, sep) + [sep] + x
    decreases |ps|
  {
    if |ps| == 1 {
      assert (ps + [x])[1..] == [x];
    } else {
      assert (ps + [x])[1..] == ps[1..] + [x];
      JoinSnoc(ps[1..], x, sep);
    }
  }

  /** A join ends with its last element's characters, so it ends with a non-separator when that element is non-empty and separator-free. */
  lemma {:induction false} JoinLastChar(ps: seq<string>, sep: char)
    requires |ps| > 0 && ps[|ps| - 1] != "" && sep !in ps[|ps| - 1]
    ensures |Join(ps, sep)| > 0 && Join(ps, sep)[|Join(ps, sep)| - 1] != sep
    decreases |ps|
  {
    if |ps| > 1 {
      var q := ps[..|ps| - 1];
      assert ps == q + [ps[|ps| - 1]];
      JoinSnoc(q, ps[|ps| - 1], sep);
    }
  }

  /** Dropping trailing empty pieces is the same as stripping trailing separators from their join. */
  lemma {:induction false} JoinDropTrailing(ps: seq<string>, sep: char)
    requires forall k :: 0 <= k < |ps| ==> sep !in ps[k]
    ensures Join(DropTrailingEmpty(ps), sep) == StripTrailing(Join(ps, sep), sep)
    decreases |ps|
  {
    if |ps| == 0 {
    } else if ps[|ps| - 1] == "" {
      var q := ps[..|ps| - 1];
      JoinDropTrailing(q, sep);
      if |q| == 0 {
        assert ps == [""];
      } else {
        assert ps == q + [""];
        JoinSnoc(q, "", sep);
        var j := Join(q, sep);
        assert Join(ps, sep) == j + [sep];
        assert (j + [sep])[..|j|] == j;
      }
    } else {
      JoinLastChar(ps, sep);
    }
  }

  /**
   The split round trip: rejoining the parts of a split with the separator
   gives back the string without its trailing separators, and no part holds
   a separator.
   */
  lemma SplitJoin(s: string, sep: char)
    ensures Join(Split(s, sep), sep) == StripTrailing(s, sep)
  {
    if sep !in s {
      if |s| > 0 {
        assert s[|s| - 1] != sep;
      }
    } else {
      JoinPieces(s, sep);
      JoinDropTrailing(Pieces(s, sep), sep);
    }
  }
}
