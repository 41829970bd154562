/**
 JavaScript values as the chat application sees them: strings that may be
 absent (`null` / `undefined`), JavaScript truthiness of such a string,
 `String.prototype.trim` and `String.prototype.split` on a single character.
 */
module JsValues {

  /** A value that may be absent; `None` stands for `null` and `undefined`. */
  datatype Option<+T> = None | Some(value: T)

  /** JavaScript truthiness of a string-or-null: `null`, `undefined` and `""` are falsy. */
  predicate Truthy(v: Option<string>) {
    v.Some? && v.value != ""
  }

  /** The WhiteSpace and LineTerminator code points that `trim` removes (ECMAScript 2019 and later). */
  predicate IsWhitespace(c: char) {
    var n := c as int;
    || 0x09 <= n <= 0x0D || n == 0x20 || n == 0xA0 || n == 0x1680
    || 0x2000 <= n <= 0x200A || n == 0x2028 || n == 0x2029 || n == 0x202F
    || n == 0x205F || n == 0x3000 || n == 0xFEFF
  }

  /** Every character of `s` is whitespace (vacuously true of ""). */
  predicate Blank(s: string) {
    forall i :: 0 <= i < |s| ==> IsWhitespace(s[i])
  }

  /** `s` with its leading whitespace removed. */
  function TrimStart(s: string): (r: string)
    ensures |r| <= |s| && r == s[|s| - |r|..]
    ensures Blank(s[..|s| - |r|])
    ensures r == [] || !IsWhitespace(r[0])
    decreases |s|
  {
    if s != [] && IsWhitespace(s[0]) then
      var r := TrimStart(s[1..]);
      assert s[..|s| - |r|] == [s[0]] + s[1..][..|s[1..]| - |r|];
      r
    else
      s
  }

  /** `s` with its trailing whitespace removed. */
  function TrimEnd(s: string): (r: string)
    ensures |r| <= |s| && r == s[..|r|]
    ensures Blank(s[|r|..])
    ensures r == [] || !IsWhitespace(r[|r| - 1])
    decreases |s|
  {
    if s != [] && IsWhitespace(s[|s| - 1]) then
      var r := TrimEnd(s[..|s| - 1]);
      assert s[|r|..] == s[..|s| - 1][|r|..] + [s[|s| - 1]];
      r
    else
      s
  }

  /** `r` is a slice of `s` whose prefix before it and suffix after it are all whitespace. */
  predicate BlankFramed(s: string, r: string) {
    exists k :: 0 <= k && k + |r| <= |s| && r == s[k..k + |r|] && Blank(s[..k]) && Blank(s[k + |r|..])
  }

  /**
   `String.prototype.trim`: the input with a whitespace prefix and a
   whitespace suffix cut off, leaving no whitespace at either end; the result
   is empty exactly when the input is all whitespace.
   */
  function Trim(s: string): (r: string)
    ensures BlankFramed(s, r)
    ensures r == [] <==> Blank(s)
    ensures r == [] || (!IsWhitespace(r[0]) && !IsWhitespace(r[|r| - 1]))
    ensures |r| <= |s|
  {
    var front := TrimStart(s);
    var r := TrimEnd(front);
    TrimCut(s, front, r);
    TrimEmpty(s, front, r);
    r
  }

  /** A whitespace suffix cut off a whitespace-stripped suffix leaves a slice between two blank ends. */
  lemma TrimCut(s: string, front: string, r: string)
    requires |front| <= |s| && front == s[|s| - |front|..] && Blank(s[..|s| - |front|])
    requires |r| <= |front| && r == front[..|r|] && Blank(front[|r|..])
    ensures BlankFramed(s, r)
  {
    var k := |s| - |front|;
    SliceOfSuffix(s, k, |r|);
    assert r == s[k..k + |r|] && Blank(s[..k]) && Blank(s[k + |r|..]);
  }

  /** The two cuts leave nothing exactly when the input is blank, and never a whitespace end. */
  lemma TrimEmpty(s: string, front: string, r: string)
    requires |front| <= |s| && front == s[|s| - |front|..] && Blank(s[..|s| - |front|])
    requires front == [] || !IsWhitespace(front[0])
    requires |r| <= |front| && r == front[..|r|] && Blank(front[|r|..])
    requires r == [] || !IsWhitespace(r[|r| - 1])
    ensures r == [] <==> Blank(s)
    ensures r == [] || (!IsWhitespace(r[0]) && !IsWhitespace(r[|r| - 1]))
  {
    var k := |s| - |front|;
    if r == [] {
      assert front == front[|r|..];
      BlankAppend(s[..k], front);
      assert s == s[..k] + front;
    } else {
      assert front[0] == r[0];
      assert s[k] == front[0];
    }
  }

  /** Slicing a suffix is slicing the whole. */
  lemma SliceOfSuffix(s: string, k: nat, n: nat)
    requires k + n <= |s|
    ensures s[k..][..n] == s[k..k + n] && s[k..][n..] == s[k + n..]
  {
  }

  /** Two all-whitespace strings concatenate to an all-whitespace string. */
  lemma BlankAppend(a: string, b: string)
    requires Blank(a) && Blank(b)
    ensures Blank(a + b)
  {
  }

  /** The index of the first occurrence of `c` in `s`. */
  function IndexOf(s: string, c: char): (i: nat)
    requires c in s
    ensures i < |s| && s[i] == c && c !in s[..i]
  {
    if s[0] == c then 0
    else
      assert c in s[1..] by { var k :| 0 <= k < |s| && s[k] == c; assert s[1..][k - 1] == c; }
      var i := IndexOf(s[1..], c) + 1;
      assert s[..i] == [s[0]] + s[1..][..i - 1];
      i
  }

  /** The pieces glued back together with one `d` between neighbours. */
  function Join(parts: seq<string>, d: char): string
    requires |parts| >= 1
  {
    if |parts| == 1 then parts[0] else parts[0] + [d] + Join(parts[1..], d)
  }

  /** `s.split(d)` for a one-character separator: the pieces between occurrences of `d`. */
  function Split(s: string, d: char): (parts: seq<string>)
    ensures |parts| >= 1
    ensures forall i :: 0 <= i < |parts| ==> d !in parts[i]
    ensures Join(parts, d) == s
    decreases |s|
  {
    if d !in s then [s]
    else
      var i := IndexOf(s, d);
      var rest := Split(s[i + 1..], d);
      assert s == s[..i] + [d] + s[i + 1..];
      [s[..i]] + rest
  }

  /** Splitting undoes joining when no piece contains the separator. */
  lemma {:induction false} SplitJoin(parts: seq<string>, d: char)
    requires |parts| >= 1
    requires forall i :: 0 <= i < |parts| ==> d !in parts[i]
    ensures Split(Join(parts, d), d) == parts
    decreases |parts|
  {
    if |parts| > 1 {
      SplitCons(parts[0], Join(parts[1..], d), d);
      SplitJoin(parts[1..], d);
      assert parts == [parts[0]] + parts[1..];
    }
  }

  /** Splitting at a first separator peels off the piece in front of it. */
  lemma SplitCons(a: string, b: string, d: char)
    requires d !in a
    ensures Split(a + [d] + b, d) == [a] + Split(b, d)
  {
    var s := a + [d] + b;
    assert s[|a|] == d;
    var i := IndexOf(s, d);
    assert i == |a|;
    assert s[..i] == a;
    assert s[i + 1..] == b;
  }

  /**
   Where the second piece of a split sits in the input: after the first piece
   and one separator, and followed by the end or another separator.
   */
  lemma SplitSecond(s: string, d: char)
    requires |Split(s, d)| >= 2
    ensures var p := Split(s, d); var k := |p[0]|;
      && k + 1 + |p[1]| <= |s| && s[..k] == p[0] && s[k] == d && s[k + 1..k + 1 + |p[1]|] == p[1]
      && (k + 1 + |p[1]| == |s| || s[k + 1 + |p[1]|] == d)
  {
    var p := Split(s, d);
    var k := |p[0]|;
    var tail := Join(p[1..], d);
    assert s == p[0] + [d] + tail;
    if |p| == 2 {
      assert tail == p[1];
    } else {
      assert tail == p[1] + [d] + Join(p[2..], d);
    }
    assert s[k + 1..] == tail;
  }

  /**
   The second piece of `scheme + d + field + rest` is `field` when neither
   `scheme` nor `field` holds the separator and `rest` is empty or starts
   with it.
   */
  lemma SplitSecondOf(scheme: string, field: string, rest: string, d: char)
    requires d !in scheme && d !in field
    requires rest == [] || rest[0] == d
    ensures |Split(scheme + [d] + field + rest, d)| >= 2
    ensures Split(scheme + [d] + field + rest, d)[1] == field
  {
    assert scheme + [d] + field + rest == scheme + [d] + (field + rest);
    SplitCons(scheme, field + rest, d);
    SplitFirst(field, rest, d);
  }

  /** The first piece of `field + rest` is `field` when `rest` is empty or starts with the separator. */
  lemma SplitFirst(field: string, rest: string, d: char)
    requires d !in field
    requires rest == [] || rest[0] == d
    ensures Split(field + rest, d)[0] == field
  {
    if rest == [] {
      assert field + rest == field;
    } else {
      assert field + rest == field + [d] + rest[1..];
      SplitCons(field, rest[1..], d);
    }
  }
}
