/**
 * The string primitives the application relies on: Python's str.strip()
 * with no argument, str.split(sep) with a one-character separator and
 * sep.join(parts), plus two small parsing helpers used by the partner
 * parsers of the renderer and of the download link.
 */
module Text {
  import opened Wrappers

  /** The characters Python's str.isspace() accepts; str.strip() removes exactly these. */
  predicate IsSpace(c: char) {
    ('\t' <= c <= '\r') || ('\U{1C}' <= c <= ' ') || c == '\U{85}' || c == '\U{A0}'
    || c == '\U{1680}' || ('\U{2000}' <= c <= '\U{200A}') || c == '\U{2028}' || c == '\U{2029}'
    || c == '\U{202F}' || c == '\U{205F}' || c == '\U{3000}'
  }

  predicate AllSpace(s: string) {
    forall i :: 0 <= i < |s| ==> IsSpace(s[i])
  }

  /** Neither the first nor the last character is white space. */
  predicate IsStripped(s: string) {
    s == [] || (!IsSpace(s[0]) && !IsSpace(s[|s| - 1]))
  }

  /** Python's s.lstrip(): drops the leading run of white space. */
  function TrimStart(s: string): (r: string)
    ensures |r| <= |s| && r == s[|s| - |r|..]
    ensures AllSpace(s[..|s| - |r|])
    ensures r == [] || !IsSpace(r[0])
    decreases |s|
  {
    if |s| > 0 && IsSpace(s[0]) then TrimStart(s[1..]) else s
  }

  /** Python's s.rstrip(): drops the trailing run of white space. */
  function TrimEnd(s: string): (r: string)
    ensures |r| <= |s| && r == s[..|r|]
    ensures AllSpace(s[|r|..])
    ensures r == [] || !IsSpace(r[|r| - 1])
    decreases |s|
  {
    if |s| > 0 && IsSpace(s[|s| - 1]) then TrimEnd(s[..|s| - 1]) else s
  }

  /** Python's s.strip(). */
  function Strip(s: string): (r: string)
    ensures IsStripped(r)
  {
    TrimEnd(TrimStart(s))
  }

  /** x is s with some white space, and nothing else, removed at its two ends. */
  ghost predicate TrimmedFrom(x: string, s: string) {
    exists i, j :: 0 <= i <= j <= |s| && x == s[i..j] && AllSpace(s[..i]) && AllSpace(s[j..])
  }

  /** A character absent from a text is absent from its stripped form. */
  lemma StripKeepsOut(s: string, c: char)
    requires c !in s
    ensures c !in Strip(s)
  {
    StripRemovesOnlySpace(s);
    var i, j :| 0 <= i <= j <= |s| && Strip(s) == s[i..j] && AllSpace(s[..i]) && AllSpace(s[j..]);
    forall k | 0 <= k < j - i ensures Strip(s)[k] != c {
      assert Strip(s)[k] == s[i + k];
    }
  }

  /** Strip only ever removes white space at the two ends: s is pre + Strip(s) + post. */
  lemma StripRemovesOnlySpace(s: string)
    ensures TrimmedFrom(Strip(s), s)
  {
    var t := TrimStart(s);
    var i := |s| - |t|;
    var j := i + |TrimEnd(t)|;
    assert t == s[i..];
    assert TrimEnd(t) == s[i..j];
    assert s[j..] == t[|TrimEnd(t)|..];
  }

  lemma TrimStartOfSpacePrefix(pre: string, x: string)
    requires AllSpace(pre)
    requires x == [] || !IsSpace(x[0])
    ensures TrimStart(pre + x) == x
    decreases |pre|
  {
    if pre != [] {
      assert (pre + x)[1..] == pre[1..] + x;
      TrimStartOfSpacePrefix(pre[1..], x);
    } else {
      assert pre + x == x;
    }
  }

  lemma TrimEndOfSpaceSuffix(x: string, post: string)
    requires AllSpace(post)
    requires x == [] || !IsSpace(x[|x| - 1])
    ensures TrimEnd(x + post) == x
    decreases |post|
  {
    if post != [] {
      assert (x + post)[..|x + post| - 1] == x + post[..|post| - 1];
      TrimEndOfSpaceSuffix(x, post[..|post| - 1]);
    } else {
      assert x + post == x;
    }
  }

  /**
   * Strip is determined by its contract: whenever s is white space, then a
   * stripped string x, then white space, Strip(s) is that x.
   */
  lemma {:induction false} StripUnique(pre: string, x: string, post: string)
    requires AllSpace(pre) && AllSpace(post) && IsStripped(x)
    ensures Strip(pre + x + post) == x
  {
    if x == [] {
      assert pre + x + post == pre + post;
      assert AllSpace(pre + post);
      TrimStartOfSpacePrefix(pre + post, []);
      assert pre + post + [] == pre + post;
      assert TrimStart(pre + post) == [];
    } else {
      assert pre + x + post == pre + (x + post);
      TrimStartOfSpacePrefix(pre, x + post);
      TrimEndOfSpaceSuffix(x, post);
    }
  }

  /** Stripping twice is stripping once. */
  lemma StripIdempotent(s: string)
    ensures Strip(Strip(s)) == Strip(s)
  {
    var x := Strip(s);
    StripUnique([], x, []);
    assert [] + x + [] == x;
  }

  /** Python's s.split(sep) for a one-character separator: every piece, empty ones included. */
  function Split(s: string, sep: char): (r: seq<string>)
    ensures |r| >= 1
    decreases |s|
  {
    if |s| == 0 then [""]
    else
      var rest := Split(s[1..], sep);
      if s[0] == sep then [""] + rest
      else [[s[0]] + rest[0]] + rest[1..]
  }

  /** A split has exactly one more piece than the input has separators. */
  lemma {:induction false} SplitCount(s: string, sep: char)
    ensures |Split(s, sep)| == multiset(s)[sep] + 1
    decreases |s|
  {
    if |s| > 0 {
      SplitCount(s[1..], sep);
      assert s == [s[0]] + s[1..];
      assert multiset(s) == multiset([s[0]]) + multiset(s[1..]);
    }
  }

  /** The summed lengths of a list of texts. */
  function TotalLength(parts: seq<string>): nat
    decreases |parts|
  {
    if |parts| == 0 then 0 else |parts[0]| + TotalLength(parts[1..])
  }

  /** Python's sep.join(parts): every part, in order, with one separator between neighbours. */
  function Join(sep: string, parts: seq<string>): (r: string)
    ensures |parts| == 0 ==> r == ""
    ensures |parts| > 0 ==> |r| == TotalLength(parts) + |sep| * (|parts| - 1)
    decreases |parts|
  {
    if |parts| == 0 then ""
    else if |parts| == 1 then parts[0]
    else
      assert |sep| * (|parts| - 1) == |sep| + |sep| * (|parts| - 2);
      parts[0] + sep + Join(sep, parts[1..])
  }

  lemma JoinCons(sep: string, p: string, rest: seq<string>)
    requires |rest| >= 1
    ensures Join(sep, [p] + rest) == p + sep + Join(sep, rest)
  {
    assert ([p] + rest)[1..] == rest;
  }

  /** No piece of a split contains the separator. */
  lemma {:induction false} SplitPiecesHaveNoSeparator(s: string, sep: char)
    ensures forall k :: 0 <= k < |Split(s, sep)| ==> sep !in Split(s, sep)[k]
    decreases |s|
  {
    if |s| > 0 {
      SplitPiecesHaveNoSeparator(s[1..], sep);
    }
  }

  /** Prefixing the first part prefixes the join. */
  lemma JoinPrefixFirst(sep: string, x: string, parts: seq<string>)
    requires |parts| >= 1
    ensures Join(sep, [x + parts[0]] + parts[1..]) == x + Join(sep, parts)
  {
    var moved := [x + parts[0]] + parts[1..];
    if |parts| > 1 {
      assert moved[1..] == parts[1..];
      assert x + parts[0] + sep + Join(sep, parts[1..]) == x + (parts[0] + sep + Join(sep, parts[1..]));
    }
  }

  /** Joining the pieces with the separator gives back the input. */
  lemma {:induction false} JoinSplit(s: string, sep: char)
    ensures Join([sep], Split(s, sep)) == s
    decreases |s|
  {
    if |s| > 0 {
      var rest := Split(s[1..], sep);
      JoinSplit(s[1..], sep);
      assert s == [s[0]] + s[1..];
      if s[0] == sep {
        JoinCons([sep], "", rest);
        assert "" + [sep] == [sep];
      } else if |rest| == 1 {
        assert Split(s, sep) == [[s[0]] + rest[0]];
      } else {
        var j := Join([sep], rest[1..]);
        assert Split(s, sep) == [[s[0]] + rest[0]] + rest[1..];
        JoinCons([sep], [s[0]] + rest[0], rest[1..]);
        assert rest == [rest[0]] + rest[1..];
        JoinCons([sep], rest[0], rest[1..]);
        assert [s[0]] + rest[0] + [sep] + j == [s[0]] + (rest[0] + [sep] + j);
      }
    }
  }

  lemma {:induction false} SplitWithoutSeparator(x: string, sep: char)
    requires sep !in x
    ensures Split(x, sep) == [x]
    decreases |x|
  {
    if |x| > 0 {
      SplitWithoutSeparator(x[1..], sep);
      assert x == [x[0]] + x[1..];
    }
  }

  lemma {:induction false} SplitAtSeparator(x: string, sep: char, y: string)
    requires sep !in x
    ensures Split(x + [sep] + y, sep) == [x] + Split(y, sep)
    decreases |x|
  {
    var s := x + [sep] + y;
    if |x| == 0 {
      assert s[1..] == y;
    } else {
      assert s[1..] == x[1..] + [sep] + y;
      SplitAtSeparator(x[1..], sep, y);
      assert x == [x[0]] + x[1..];
    }
  }

  /**
   * Split is determined by its laws: a non-empty list of separator-free
   * pieces is exactly what splitting their join gives back.
   */
  lemma {:induction false} SplitJoin(parts: seq<string>, sep: char)
    requires |parts| >= 1
    requires forall k :: 0 <= k < |parts| ==> sep !in parts[k]
    ensures Split(Join([sep], parts), sep) == parts
    decreases |parts|
  {
    if |parts| == 1 {
      SplitWithoutSeparator(parts[0], sep);
    } else {
      SplitJoin(parts[1..], sep);
      SplitAtSeparator(parts[0], sep, Join([sep], parts[1..]));
      assert parts == [parts[0]] + parts[1..];
    }
  }

  /** A character that is in no part and not in the separator is not in the join. */
  lemma {:induction false} JoinAvoids(sep: string, parts: seq<string>, c: char)
    requires c !in sep
    requires forall k :: 0 <= k < |parts| ==> c !in parts[k]
    ensures c !in Join(sep, parts)
    decreases |parts|
  {
    if |parts| > 1 {
      JoinAvoids(sep, parts[1..], c);
    }
  }

  // ---------------------------------------------------------------------
  // Parsing helpers

  /** The rest of s after the literal prefix lit, if s starts with it. */
  function Chop(s: string, lit: string): (r: Option<string>)
    ensures r.Some? <==> lit <= s
    ensures r.Some? ==> s == lit + r.value
  {
    if lit <= s then Some(s[|lit|..]) else None
  }

  /** Splits s in front of the first occurrence of c (or at its end). */
  function Field(s: string, c: char): (r: (string, string))
    ensures s == r.0 + r.1 && c !in r.0
    ensures r.1 == [] || r.1[0] == c
    decreases |s|
  {
    if |s| == 0 || s[0] == c then ("", s)
    else
      var (a, b) := Field(s[1..], c);
      assert s == [s[0]] + s[1..];
      ([s[0]] + a, b)
  }

  lemma ChopLiteral(lit: string, rest: string)
    ensures Chop(lit + rest, lit) == Some(rest)
  {
    assert lit <= lit + rest;
    assert (lit + rest)[|lit|..] == rest;
  }

  /** Field reads a c-free text back exactly when what follows starts with c. */
  lemma {:induction false} FieldOf(x: string, c: char, rest: string)
    requires c !in x
    requires rest == [] || rest[0] == c
    ensures Field(x + rest, c) == (x, rest)
    decreases |x|
  {
    if |x| == 0 {
      assert x + rest == rest;
    } else {
      assert (x + rest)[1..] == x[1..] + rest;
      FieldOf(x[1..], c, rest);
      assert x == [x[0]] + x[1..];
    }
  }
}
