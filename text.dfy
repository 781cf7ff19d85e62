/** The Go standard-library string operations the core relies on, written out:
    `strings.TrimSpace`, `strings.Index`, `strings.Split`/joining, and the `<`
    order on strings. */
module Text {

  /** The characters Go's `unicode.IsSpace` accepts, which `strings.TrimSpace` strips. */
  predicate IsSpace(c: char) {
    || c == ' ' || c == '\t' || c == '\n' || c == '\r' || c == '\U{B}' || c == '\U{C}'
    || c == '\U{85}' || c == '\U{A0}' || c == '\U{1680}'
    || ('\U{2000}' <= c <= '\U{200A}')
    || c == '\U{2028}' || c == '\U{2029}' || c == '\U{202F}' || c == '\U{205F}' || c == '\U{3000}'
  }

  /** `strings.TrimSpace(s) == ""`: the text is empty or only whitespace. */
  predicate IsBlank(s: string) {
    forall i :: 0 <= i < |s| ==> IsSpace(s[i])
  }

  /** Drops leading whitespace. */
  function TrimLeft(s: string): (r: string)
    ensures |r| <= |s| && r == s[|s| - |r|..]
    ensures forall i :: 0 <= i < |s| - |r| ==> IsSpace(s[i])
    ensures r != [] ==> !IsSpace(r[0])
  {
    if s != [] && IsSpace(s[0]) then TrimLeft(s[1..]) else s
  }

  /** Drops trailing whitespace. */
  function TrimRight(s: string): (r: string)
    ensures |r| <= |s| && r == s[..|r|]
    ensures forall i :: |r| <= i < |s| ==> IsSpace(s[i])
    ensures r != [] ==> !IsSpace(r[|r| - 1])
  {
    if s != [] && IsSpace(s[|s| - 1]) then TrimRight(s[..|s| - 1]) else s
  }

  /** `strings.TrimSpace`: the text between the first and the last non-space character. */
  function TrimSpace(s: string): (r: string)
    ensures |r| <= |s|
    ensures r == "" <==> IsBlank(s)
    ensures r != "" ==> !IsSpace(r[0]) && !IsSpace(r[|r| - 1])
  {
    TrimRight(TrimLeft(s))
  }

  /** Trimming removes only whitespace: every other character of the text is kept. */
  lemma TrimSpaceKeepsNonSpace(s: string, c: char)
    requires c in s && !IsSpace(c)
    ensures c in TrimSpace(s)
  {
    var l := TrimLeft(s);
    var d := |s| - |l|;
    assert l == s[d..];
    var k :| 0 <= k < |s| && s[k] == c;
    assert d <= k;
    var j := k - d;
    assert l[j] == c;
    var t := TrimRight(l);
    assert t == l[..|t|];
    assert j < |t|;
    assert t[j] == c;
    assert t == TrimSpace(s);
  }

  /** Trimming adds nothing: every character of the result comes from the text. */
  lemma TrimSpaceInText(s: string, c: char)
    requires c in TrimSpace(s)
    ensures c in s
  {
    var l := TrimLeft(s);
    var t := TrimRight(l);
    assert t == TrimSpace(s);
    var k :| 0 <= k < |t| && t[k] == c;
    assert t == l[..|t|];
    assert l[k] == c;
    assert l == s[|s| - |l|..];
    assert s[k + (|s| - |l|)] == c;
  }

  /** Trimming text that has no surrounding whitespace changes nothing. */
  lemma TrimSpaceKeepsTrimmed(s: string)
    requires s != [] ==> !IsSpace(s[0]) && !IsSpace(s[|s| - 1])
    ensures TrimSpace(s) == s
  {
  }

  /** A leading space in front of trimmed text is trimmed away again. */
  lemma TrimSpaceLeadingSpace(s: string)
    requires s != [] ==> !IsSpace(s[0]) && !IsSpace(s[|s| - 1])
    ensures TrimSpace(" " + s) == s
  {
    assert (" " + s)[1..] == s;
    assert TrimLeft(" " + s) == TrimLeft(s) == s;
  }

  /** Trimming twice is trimming once. */
  lemma TrimSpaceIdempotent(s: string)
    ensures TrimSpace(TrimSpace(s)) == TrimSpace(s)
  {
    TrimSpaceKeepsTrimmed(TrimSpace(s));
  }

  /** The position of the first `c` in `s` (`strings.Index` for a one-character separator). */
  function IndexOf(s: string, c: char): (i: nat)
    requires c in s
    ensures i < |s| && s[i] == c
    ensures forall j :: 0 <= j < i ==> s[j] != c
  {
    if s[0] == c then 0 else 1 + IndexOf(s[1..], c)
  }

  /** Go's `<` on strings: lexicographic order, where a proper prefix comes first.
      Go compares UTF-8 bytes; on valid text that is the order of code points. */
  predicate LexLess(a: string, b: string)
    decreases |a|
  {
    if a == [] then b != []
    else if b == [] then false
    else if a[0] != b[0] then a[0] < b[0]
    else LexLess(a[1..], b[1..])
  }

  lemma {:induction false} LexLessIrreflexive(a: string)
    ensures !LexLess(a, a)
  {
    if a != [] {
      LexLessIrreflexive(a[1..]);
    }
  }

  lemma {:induction false} LexLessAsymmetric(a: string, b: string)
    ensures !(LexLess(a, b) && LexLess(b, a))
    decreases |a|
  {
    if a != [] && b != [] && a[0] == b[0] {
      LexLessAsymmetric(a[1..], b[1..]);
    }
  }

  /** Two different strings are always ordered one way or the other. */
  lemma {:induction false} LexLessTotal(a: string, b: string)
    ensures a == b || LexLess(a, b) || LexLess(b, a)
    decreases |a|
  {
    if a != [] && b != [] && a[0] == b[0] {
      LexLessTotal(a[1..], b[1..]);
      if a[1..] == b[1..] {
        assert a == [a[0]] + a[1..] && b == [b[0]] + b[1..];
      }
    }
  }

  /** `strings.Split(s, sep)` for a one-character separator: the pieces between
      separators, one more piece than there are separators. Written from the back,
      the way a scan over the characters builds it. */
  function Split(s: string, sep: char): (parts: seq<string>)
    ensures |parts| >= 1
    ensures forall i :: 0 <= i < |parts| ==> sep !in parts[i]
    decreases |s|
  {
    if s == [] then [""]
    else
      var init := Split(s[..|s| - 1], sep);
      var c := s[|s| - 1];
      if c == sep then init + [""]
      else
        var last := init[|init| - 1] + [c];
        assert sep !in last;
        init[..|init| - 1] + [last]
  }

  /** The inverse of Split: the pieces with one separator between neighbours. */
  function Join(parts: seq<string>, sep: char): string
    decreases |parts|
  {
    if |parts| == 0 then ""
    else if |parts| == 1 then parts[0]
    else Join(parts[..|parts| - 1], sep) + [sep] + parts[|parts| - 1]
  }

  /** Appending a piece appends a separator and the piece. */
  lemma JoinSnoc(parts: seq<string>, x: string, sep: char)
    requires |parts| >= 1
    ensures Join(parts + [x], sep) == Join(parts, sep) + [sep] + x
  {
    assert (parts + [x])[..|parts|] == parts;
  }

  /** Joining the pieces of a split gives the text back. */
  lemma {:induction false} JoinSplit(s: string, sep: char)
    ensures Join(Split(s, sep), sep) == s
    decreases |s|
  {
    if s != [] {
      var p := s[..|s| - 1];
      var c := s[|s| - 1];
      var init := Split(p, sep);
      JoinSplit(p, sep);
      assert s == p + [c];
      if c == sep {
        JoinSnoc(init, "", sep);
      } else {
        var last := init[|init| - 1] + [c];
        if |init| == 1 {
          assert Split(s, sep) == [last];
        } else {
          var front := init[..|init| - 1];
          assert init == front + [init[|init| - 1]];
          JoinSnoc(front, init[|init| - 1], sep);
          JoinSnoc(front, last, sep);
        }
      }
    }
  }

  /** Splitting yields one more piece than there are separators. */
  lemma {:induction false} SplitCount(s: string, sep: char)
    ensures |Split(s, sep)| == multiset(s)[sep] + 1
    decreases |s|
  {
    if s != [] {
      var p := s[..|s| - 1];
      SplitCount(p, sep);
      assert s == p + [s[|s| - 1]];
      assert multiset(s) == multiset(p) + multiset{s[|s| - 1]};
    }
  }

  /** Splitting text that ends in a separator and a separator-free piece. */
  lemma {:induction false} SplitAfterSeparator(a: string, x: string, sep: char)
    requires sep !in x
    ensures Split(a + [sep] + x, sep) == Split(a, sep) + [x]
    decreases |x|
  {
    if x == [] {
      assert a + [sep] + x == a + [sep];
      assert (a + [sep])[..|a|] == a;
    } else {
      var x' := x[..|x| - 1];
      var c := x[|x| - 1];
      SplitAfterSeparator(a, x', sep);
      var t := a + [sep] + x;
      assert t[..|t| - 1] == a + [sep] + x';
      assert t[|t| - 1] == c;
      var init := Split(a, sep) + [x'];
      assert init[..|init| - 1] == Split(a, sep);
      assert x' + [c] == x;
    }
  }

  /** Separator-free pieces survive a join followed by a split, unless the only
      piece is empty (joining [""] gives "", which splits to [""] too). */
  lemma {:induction false} SplitJoin(parts: seq<string>, sep: char)
    requires |parts| >= 1
    requires forall i :: 0 <= i < |parts| ==> sep !in parts[i]
    ensures Split(Join(parts, sep), sep) == parts
    decreases |parts|
  {
    if |parts| == 1 {
      SplitWithoutSeparator(parts[0], sep);
    } else {
      var front := parts[..|parts| - 1];
      SplitJoin(front, sep);
      SplitAfterSeparator(Join(front, sep), parts[|parts| - 1], sep);
      assert front + [parts[|parts| - 1]] == parts;
    }
  }

  /** Text without a separator is one piece. */
  lemma {:induction false} SplitWithoutSeparator(s: string, sep: char)
    requires sep !in s
    ensures Split(s, sep) == [s]
    decreases |s|
  {
    if s != [] {
      var p := s[..|s| - 1];
      SplitWithoutSeparator(p, sep);
      assert p + [s[|s| - 1]] == s;
    }
  }
}
