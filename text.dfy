/** Character-level string operations the task code relies on: Rust's
    `str::trim`, `str::starts_with`, the position of a separator, and the
    lexicographic ordering of `String` used when tasks are sorted by id. */
module Text {

  /** Rust's `char::is_whitespace`: the Unicode White_Space property. */
  predicate IsWhite(c: char) {
    var n := c as int;
    (9 <= n <= 13) || n == 0x20 || n == 0x85 || n == 0xA0 || n == 0x1680
    || (0x2000 <= n <= 0x200A) || n == 0x2028 || n == 0x2029 || n == 0x202F
    || n == 0x205F || n == 0x3000
  }

  /** Every character of `s` is white space (the empty string included). */
  predicate IsBlank(s: string) {
    forall i :: 0 <= i < |s| ==> IsWhite(s[i])
  }

  /** `s` neither starts nor ends with white space. */
  predicate IsTrimmed(s: string) {
    s == [] || (!IsWhite(s[0]) && !IsWhite(s[|s| - 1]))
  }

  /** Rust's `starts_with`: `p` is a leading substring of `s`. */
  predicate StartsWith(s: string, p: string) {
    p <= s
  }

  /** Where the text of `s` starts: the position of its first character
      that is not white space, or `|s|` when there is none. */
  function TrimStartIndex(s: string): (i: nat)
    ensures i <= |s|
    ensures forall k :: 0 <= k < i ==> IsWhite(s[k])
    ensures i < |s| ==> !IsWhite(s[i])
  {
    if s == [] || !IsWhite(s[0]) then 0 else 1 + TrimStartIndex(s[1..])
  }

  /** Where the text of `s` ends: one past its last character that is not
      white space, or 0 when there is none. */
  function TrimEndIndex(s: string): (j: nat)
    ensures j <= |s|
    ensures forall k :: j <= k < |s| ==> IsWhite(s[k])
    ensures j > 0 ==> !IsWhite(s[j - 1])
  {
    if s == [] || !IsWhite(s[|s| - 1]) then |s| else TrimEndIndex(s[..|s| - 1])
  }

  /** Rust's `str::trim`: `s` without its leading and trailing white space. */
  function Trim(s: string): (r: string)
    ensures IsTrimmed(r)
    ensures r == [] <==> IsBlank(s)
  {
    var i := TrimStartIndex(s);
    if i == |s| then []
    else
      var j := TrimEndIndex(s);
      assert !IsWhite(s[i]) && i < j;
      s[i..j]
  }

  /** What `Trim` keeps: the part of `s` between a blank start and a blank
      end. As that part neither starts nor ends with white space, it is `s`
      without its surrounding white space. */
  lemma TrimIsInfix(s: string)
    ensures exists i, j :: 0 <= i <= j <= |s| && Trim(s) == s[i..j] && IsBlank(s[..i]) && IsBlank(s[j..])
  {
    var i := TrimStartIndex(s);
    if i == |s| {
      assert IsBlank(s[..i]) && IsBlank(s[i..]) && s[i..i] == [];
    } else {
      var j := TrimEndIndex(s);
      assert IsBlank(s[..i]) && IsBlank(s[j..]);
    }
  }

  /** A string with no surrounding white space, padded by one trailing
      space, trims back to itself. */
  lemma TrimPadded(d: string)
    requires IsTrimmed(d)
    ensures Trim(d + " ") == d
  {
    var s := d + " ";
    assert s[..|s| - 1] == d;
    if d != [] {
      assert s[0] == d[0];
      assert TrimEndIndex(s) == TrimEndIndex(d) == |d|;
      assert s[0..|d|] == d;
    }
  }

  /** Index of the first `c` in `s`, or `|s|` if there is none. */
  function IndexOf(s: string, c: char): (r: nat)
    ensures r <= |s|
    ensures c !in s[..r]
    ensures r < |s| ==> s[r] == c
  {
    if s == [] then 0
    else if s[0] == c then 0
    else
      var k := IndexOf(s[1..], c);
      assert s[..k + 1] == [s[0]] + s[1..][..k];
      k + 1
  }

  /** Rust's `Ord` for `String`: lexicographic by character code; a proper
      prefix comes first. */
  predicate LexLe(a: string, b: string) {
    a == [] || (b != [] && (a[0] < b[0] || (a[0] == b[0] && LexLe(a[1..], b[1..]))))
  }

  lemma {:induction false} LexLeTotal(a: string, b: string)
    ensures LexLe(a, b) || LexLe(b, a)
  {
    if a != [] && b != [] && a[0] == b[0] {
      LexLeTotal(a[1..], b[1..]);
    }
  }

  lemma {:induction false} LexLeTrans(a: string, b: string, c: string)
    requires LexLe(a, b) && LexLe(b, c)
    ensures LexLe(a, c)
  {
    if a != [] && b != [] && c != [] && a[0] == b[0] && b[0] == c[0] {
      LexLeTrans(a[1..], b[1..], c[1..]);
    }
  }

  /** A string that properly extends `p` sorts after `p`. */
  lemma {:induction false} ExtensionSortsAfter(s: string, p: string)
    requires StartsWith(s, p) && s != p
    ensures !LexLe(s, p)
  {
    if p != [] {
      assert s[0] == p[0];
      ExtensionSortsAfter(s[1..], p[1..]);
    }
  }
}
