/** The few JavaScript string built-ins the core relies on, over Dafny
    strings: `startsWith`, `split(c)` with its first two pieces, and `trim`. */
module Text {
  import opened Wrappers

  /** `s.startsWith(prefix)`. */
  predicate StartsWith(s: string, prefix: string)
    ensures StartsWith(s, prefix) <==> |prefix| <= |s| && s == prefix + s[|prefix|..]
  {
    |prefix| <= |s| && s[..|prefix|] == prefix
  }

  /** `s.split(c)[0]`: the text before the first `c`, or all of `s` when
      there is none. */
  function BeforeFirst(s: string, c: char): (r: string)
    ensures c !in r
    ensures |r| <= |s| && r == s[..|r|]
    ensures |r| < |s| ==> s[|r|] == c
    ensures |r| == |s| <==> c !in s
  {
    if s == [] then []
    else if s[0] == c then []
    else [s[0]] + BeforeFirst(s[1..], c)
  }

  /** Before the first `c` of `a` + `c` + `b`, when `a` has no `c`, is
      `a`. */
  lemma BeforeSeparator(a: string, c: char, b: string)
    requires c !in a
    ensures BeforeFirst(a + [c] + b, c) == a
  {
    var s := a + [c] + b;
    assert s[|a|] == c;
    assert s[..|a|] == a;
  }

  /** The text after the first `c`, or None when `s` has no `c`. */
  function AfterFirst(s: string, c: char): (r: Option<string>)
    ensures r.None? <==> c !in s
    ensures r.Some? ==> s == BeforeFirst(s, c) + [c] + r.value
  {
    var k := |BeforeFirst(s, c)|;
    if k == |s| then None else Some(s[k + 1..])
  }

  /** `s.split(c)[1]`: the text between the first and the second `c` (or the
      end), or None (JavaScript's `undefined`) when `s` has no `c`. */
  function SecondSegment(s: string, c: char): (r: Option<string>)
    ensures r.None? <==> c !in s
    ensures r.Some? ==> c !in r.value
  {
    match AfterFirst(s, c)
    case None => None
    case Some(after) => Some(BeforeFirst(after, c))
  }

  /** `s.split(c)`: the pieces between the occurrences of `c`, in order;
      one piece more than there are `c`s. */
  function Split(s: string, c: char): (parts: seq<string>)
    ensures |parts| >= 1 && parts[0] == BeforeFirst(s, c)
    ensures forall k :: 0 <= k < |parts| ==> c !in parts[k]
    ensures |parts| >= 2 <==> c in s
    ensures |parts| >= 2 ==> SecondSegment(s, c) == Some(parts[1])
    decreases |s|
  {
    match AfterFirst(s, c)
    case None => [s]
    case Some(rest) => [BeforeFirst(s, c)] + Split(rest, c)
  }

  /** The characters ECMAScript's `String.prototype.trim` removes: the
      WhiteSpace and LineTerminator code points (section 12.2 and 12.3 of
      ECMA-262), the space separators of Unicode category Zs included. */
  predicate IsTrimmable(ch: char)
  {
    || ch == '\t' || ch == '\n' || ch == '\U{000B}' || ch == '\U{000C}' || ch == '\r'
    || ch == ' ' || ch == '\U{00A0}' || ch == '\U{1680}'
    || ('\U{2000}' <= ch <= '\U{200A}')
    || ch == '\U{2028}' || ch == '\U{2029}' || ch == '\U{202F}' || ch == '\U{205F}'
    || ch == '\U{3000}' || ch == '\U{FEFF}'
  }

  /** The end of the run of trimmable characters that starts at `i`. */
  function LeadingEnd(s: string, i: nat): (n: nat)
    requires i <= |s|
    ensures i <= n <= |s|
    ensures forall k :: i <= k < n ==> IsTrimmable(s[k])
    ensures n == |s| || !IsTrimmable(s[n])
    decreases |s| - i
  {
    if i < |s| && IsTrimmable(s[i]) then LeadingEnd(s, i + 1) else i
  }

  /** The start of the run of trimmable characters that ends at `j`, not
      going below `lo`. */
  function TrailingStart(s: string, lo: nat, j: nat): (n: nat)
    requires lo <= j <= |s|
    ensures lo <= n <= j
    ensures forall k :: n <= k < j ==> IsTrimmable(s[k])
    ensures n == lo || !IsTrimmable(s[n - 1])
    decreases j
  {
    if j > lo && IsTrimmable(s[j - 1]) then TrailingStart(s, lo, j - 1) else j
  }

  /** `s.trim()`: the text between the leading and the trailing runs of
      whitespace. */
  function Trim(s: string): (r: string)
    ensures |r| <= |s|
    ensures r != [] ==> !IsTrimmable(r[0]) && !IsTrimmable(r[|r| - 1])
    ensures r == [] <==> forall k :: 0 <= k < |s| ==> IsTrimmable(s[k])
  {
    var i := LeadingEnd(s, 0);
    s[i..TrailingStart(s, i, |s|)]
  }

  /** What `trim` promises: the result is a contiguous slice of the input,
      everything cut off on either side is whitespace, and the result
      neither starts nor ends with whitespace. */
  lemma TrimIsMaximalSlice(s: string)
    ensures exists i, j ::
              && 0 <= i <= j <= |s| && Trim(s) == s[i..j]
              && (forall k :: 0 <= k < i ==> IsTrimmable(s[k]))
              && (forall k :: j <= k < |s| ==> IsTrimmable(s[k]))
    ensures Trim(s) == [] || (!IsTrimmable(Trim(s)[0]) && !IsTrimmable(Trim(s)[|Trim(s)| - 1]))
  {
    var i := LeadingEnd(s, 0);
    var j := TrailingStart(s, i, |s|);
    assert Trim(s) == s[i..j];
    if i < j {
      assert Trim(s)[0] == s[i];
      assert Trim(s)[|Trim(s)| - 1] == s[j - 1];
    }
  }

  /** Trimming twice is trimming once. */
  lemma TrimIdempotent(s: string)
    ensures Trim(Trim(s)) == Trim(s)
  {
    var t := Trim(s);
    TrimIsMaximalSlice(s);
    assert LeadingEnd(t, 0) == 0;
    assert TrailingStart(t, 0, |t|) == |t|;
  }
}
