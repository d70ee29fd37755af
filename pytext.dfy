/** The two Python `str` methods the class-list parser relies on:
    `str.split(',')` and `str.strip()`. */
module PyText {

  /** The separator of the class-value list. */
  const Sep: char := ','

  /** Python's `str.isspace()`: Unicode whitespace (bidirectional class WS, B
      or S, or general category Zs). `str.strip()` removes exactly these. */
  predicate IsSpace(c: char) {
    ('\t' <= c <= '\r')                       // tab, line feed, vertical tab, form feed, carriage return
    || ('\U{1C}' <= c <= ' ')                 // the four information separators and space
    || c == '\U{85}' || c == '\U{A0}' || c == '\U{1680}'
    || ('\U{2000}' <= c <= '\U{200A}')
    || c == '\U{2028}' || c == '\U{2029}' || c == '\U{202F}' || c == '\U{205F}' || c == '\U{3000}'
  }

  /** True of a string every character of which is whitespace (including ""). */
  predicate AllSpace(s: string) {
    forall k :: 0 <= k < |s| ==> IsSpace(s[k])
  }

  /** The fields joined back with the separator: the inverse of `Split`. */
  function Join(fields: seq<string>): string
    requires |fields| >= 1
  {
    if |fields| == 1 then fields[0] else fields[0] + [Sep] + Join(fields[1..])
  }

  /** Python's `s.split(',')`: the maximal separator-free pieces of `s`, in
      order; there is always at least one, and "" splits into [""]. */
  function Split(s: string): (r: seq<string>)
    ensures |r| >= 1
    ensures forall i :: 0 <= i < |r| ==> Sep !in r[i]
    ensures Join(r) == s
  {
    if s == [] then [[]]
    else
      var rest := Split(s[1..]);
      if s[0] == Sep then
        assert s == [Sep] + s[1..];
        [[]] + rest
      else
        assert ([[s[0]] + rest[0]] + rest[1..])[1..] == rest[1..];
        [[s[0]] + rest[0]] + rest[1..]
  }

  /** A field followed by a separator starts a new field. */
  lemma {:induction false} SplitAfterField(f: string, t: string)
    requires Sep !in f
    ensures Split(f + [Sep] + t) == [f] + Split(t)
    decreases |f|
  {
    if f == [] {
      assert f + [Sep] + t == [Sep] + t;
    } else {
      assert (f + [Sep] + t)[1..] == f[1..] + [Sep] + t;
      SplitAfterField(f[1..], t);
      assert [f[0]] + f[1..] == f;
    }
  }

  /** A string without separators is a single field. */
  lemma {:induction false} SplitSingleField(f: string)
    requires Sep !in f
    ensures Split(f) == [f]
    decreases |f|
  {
    if f != [] {
      SplitSingleField(f[1..]);
      assert [f[0]] + f[1..] == f;
    }
  }

  /** Splitting undoes joining: with `Split`'s own contract, `Split` and `Join`
      are inverse bijections between strings and non-empty lists of
      separator-free fields. */
  lemma {:induction false} SplitJoin(fields: seq<string>)
    requires |fields| >= 1
    requires forall i :: 0 <= i < |fields| ==> Sep !in fields[i]
    ensures Split(Join(fields)) == fields
  {
    if |fields| == 1 {
      SplitSingleField(fields[0]);
    } else {
      SplitJoin(fields[1..]);
      SplitAfterField(fields[0], Join(fields[1..]));
      assert [fields[0]] + fields[1..] == fields;
    }
  }

  /** The number of whitespace characters at the start of `s`: the index at
      which `lstrip()` and `strip()` start their result. */
  function LeadingSpaces(s: string): (n: nat)
    ensures n <= |s| && AllSpace(s[..n])
    ensures n == |s| || !IsSpace(s[n])
  {
    if s != [] && IsSpace(s[0]) then
      var n := LeadingSpaces(s[1..]);
      assert s[..n + 1] == [s[0]] + s[1..][..n];
      n + 1
    else 0
  }

  /** The length of `s` without its trailing whitespace: the index at which
      `rstrip()` and `strip()` end their result. */
  function TrailingStart(s: string): (n: nat)
    ensures n <= |s| && AllSpace(s[n..])
    ensures n == 0 || !IsSpace(s[n - 1])
  {
    if s != [] && IsSpace(s[|s| - 1]) then
      var n := TrailingStart(s[..|s| - 1]);
      assert s[n..] == s[..|s| - 1][n..] + [s[|s| - 1]];
      n
    else |s|
  }

  /** Python's `s.strip()`: the part of `s` between its leading and its
      trailing whitespace. */
  function Strip(s: string): string {
    var i := LeadingSpaces(s);
    s[i..][..TrailingStart(s[i..])]
  }

  /** `strip()` keeps a contiguous middle part of `s` (starting after its
      `i` leading whitespace characters) and removes only whitespace around it. */
  lemma StripSlice(s: string)
    ensures var i, r := LeadingSpaces(s), Strip(s);
      i + |r| <= |s| && r == s[i..i + |r|] && AllSpace(s[..i]) && AllSpace(s[i + |r|..])
  {
    var i := LeadingSpaces(s);
    var n := TrailingStart(s[i..]);
    assert Strip(s) == s[i..][..n] && AllSpace(s[i..][n..]);
    SuffixPrefix(s, i, n);
  }

  /** Taking `n` characters after position `i` is the slice `s[i..i + n]`. */
  lemma SuffixPrefix(s: string, i: nat, n: nat)
    requires i + n <= |s|
    ensures s[i..][..n] == s[i..i + n] && s[i..][n..] == s[i + n..]
  {
  }

  /** The result of `strip()` is empty exactly when `s` is all whitespace,
      and otherwise neither starts nor ends with whitespace. */
  lemma StripSpec(s: string)
    ensures Strip(s) != [] ==> !IsSpace(Strip(s)[0]) && !IsSpace(Strip(s)[|Strip(s)| - 1])
    ensures Strip(s) == [] <==> AllSpace(s)
  {
    var i := LeadingSpaces(s);
    var l := s[i..];
    if i < |s| {
      assert s[i] == l[0] && !IsSpace(l[0]);
      assert TrailingStart(l) > 0;
    } else {
      assert s[..i] == s;
    }
  }

  /** Stripping twice is stripping once. */
  lemma StripIdempotent(s: string)
    ensures Strip(Strip(s)) == Strip(s)
  {
    StripSpec(s);
    if Strip(s) != [] {
      StripUnchanged(Strip(s));
    }
  }

  /** A string that neither starts nor ends with whitespace is its own strip. */
  lemma StripUnchanged(t: string)
    requires t != [] && !IsSpace(t[0]) && !IsSpace(t[|t| - 1])
    ensures Strip(t) == t
  {
  }
}
