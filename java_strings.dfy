/**
 * The java.lang pieces the core leans on, stated once: fixed-width integers,
 * String.startsWith / indexOf / contains / trim, Integer.parseInt, and joining
 * and splitting on a separator character.
 */
module JavaStrings {
  import opened Wrappers

  const MinInt32: int := -0x8000_0000
  const MaxInt32: int := 0x7FFF_FFFF

  /** Java `int`. */
  type Int32 = x: int | MinInt32 <= x <= MaxInt32
  /** Java `long`. */
  type Int64 = x: int | -0x8000_0000_0000_0000 <= x < 0x8000_0000_0000_0000

  /** Java `int` arithmetic keeps the low 32 bits of the exact result, read as two's complement. */
  function WrapInt32(x: int): (r: Int32)
    ensures MinInt32 <= x <= MaxInt32 ==> r == x
    ensures (x - r) % 0x1_0000_0000 == 0
  {
    var m := x % 0x1_0000_0000;
    if m <= MaxInt32 then m else m - 0x1_0000_0000
  }

  /** `s.startsWith(p)` */
  predicate StartsWith(s: string, p: string) {
    |p| <= |s| && s[..|p|] == p
  }

  /** `p` occurs in `s` at index `i`. */
  predicate OccursAt(s: string, p: string, i: nat) {
    i + |p| <= |s| && s[i..i + |p|] == p
  }

  /** `s.indexOf(p)`, with -1 rendered as None: the first index at which `p` occurs. */
  function IndexOf(s: string, p: string): (r: Option<nat>)
    ensures r.Some? ==> OccursAt(s, p, r.value)
    ensures r.Some? ==> forall j :: 0 <= j < r.value ==> !OccursAt(s, p, j)
    ensures r.None? ==> forall j: nat :: !OccursAt(s, p, j)
  {
    IndexFrom(s, p, 0)
  }

  function IndexFrom(s: string, p: string, k: nat): (r: Option<nat>)
    decreases |s| - k
    ensures r.Some? ==> k <= r.value && OccursAt(s, p, r.value)
    ensures r.Some? ==> forall j :: k <= j < r.value ==> !OccursAt(s, p, j)
    ensures r.None? ==> forall j: nat :: k <= j ==> !OccursAt(s, p, j)
  {
    if k + |p| > |s| then None
    else if s[k..k + |p|] == p then Some(k)
    else IndexFrom(s, p, k + 1)
  }

  /** The first occurrence is what `indexOf` reports. */
  lemma IndexOfFirst(s: string, p: string, i: nat)
    requires OccursAt(s, p, i)
    requires forall j :: 0 <= j < i ==> !OccursAt(s, p, j)
    ensures IndexOf(s, p) == Some(i)
  {
  }

  /** A string that opens with `p` has `p` at index 0, followed by the rest. */
  lemma PrefixSlices(p: string, a: string, b: string)
    ensures OccursAt(p + a + b, p, 0)
    ensures (p + a + b)[|p|..] == a + b
  {
    assert (p + a + b)[0..|p|] == p;
  }

  /** `s.contains(p)` */
  predicate Contains(s: string, p: string) {
    IndexOf(s, p).Some?
  }

  /** The characters `String.trim()` removes: every code point up to and including U+0020. */
  predicate IsTrimmable(c: char) {
    c <= ' '
  }

  function TrimLeading(s: string): (r: string)
    ensures |r| <= |s| && r == s[|s| - |r|..]
    ensures forall k :: 0 <= k < |s| - |r| ==> IsTrimmable(s[k])
    ensures r != [] ==> !IsTrimmable(r[0])
  {
    if s != [] && IsTrimmable(s[0]) then TrimLeading(s[1..]) else s
  }

  function TrimTrailing(s: string): (r: string)
    ensures |r| <= |s| && r == s[..|r|]
    ensures forall k :: |r| <= k < |s| ==> IsTrimmable(s[k])
    ensures r != [] ==> !IsTrimmable(r[|r| - 1])
  {
    if s != [] && IsTrimmable(s[|s| - 1]) then TrimTrailing(s[..|s| - 1]) else s
  }

  /** `s.trim()`: the longest slice of `s` that neither starts nor ends with a trimmable character. */
  function Trim(s: string): (r: string)
    ensures |r| <= |s|
    ensures r != [] ==> !IsTrimmable(r[0]) && !IsTrimmable(r[|r| - 1])
    ensures exists i :: KeptSlice(s, r, i)
  {
    KeptAroundSuffix(s, TrimLeading(s), TrimTrailing(TrimLeading(s)));
    TrimTrailing(TrimLeading(s))
  }

  /**
   * The two passes of `Trim`: `lead` is `s` without a trimmable prefix, `r` is `lead` without a
   * trimmable suffix, so `r` is a slice of `s` with only trimmable characters around it.
   */
  lemma KeptAroundSuffix(s: string, lead: string, r: string)
    requires |lead| <= |s| && lead == s[|s| - |lead|..]
    requires forall k :: 0 <= k < |s| - |lead| ==> IsTrimmable(s[k])
    requires |r| <= |lead| && r == lead[..|r|]
    requires forall k :: |r| <= k < |lead| ==> IsTrimmable(lead[k])
    ensures KeptSlice(s, r, |s| - |lead|)
  {
    var i := |s| - |lead|;
    forall k | i + |r| <= k < |s| ensures IsTrimmable(s[k]) {
      assert s[k] == lead[k - i];
    }
  }

  /** Every character of `s` before index `i` and from index `j` on is trimmable. */
  predicate TrimmedAt(s: string, i: int, j: int) {
    && 0 <= i <= j <= |s|
    && (forall k :: 0 <= k < i ==> IsTrimmable(s[k]))
    && (forall k :: j <= k < |s| ==> IsTrimmable(s[k]))
  }

  /** `r` is the slice of `s` from index `i`, and everything around it is trimmable. */
  predicate KeptSlice(s: string, r: string, i: int) {
    TrimmedAt(s, i, i + |r|) && r == s[i..i + |r|]
  }

  /** Two trimmed slices whose ends are not trimmable are the same slice. */
  lemma TrimmedSlicesAgree(s: string, i: int, j: int, i0: int, j0: int)
    requires TrimmedAt(s, i, j) && TrimmedAt(s, i0, j0)
    requires i < j && !IsTrimmable(s[i]) && !IsTrimmable(s[j - 1])
    requires i0 < j0 && !IsTrimmable(s[i0]) && !IsTrimmable(s[j0 - 1])
    ensures i == i0 && j == j0
  {
  }

  /** The trimmed slice is unique: what `KeptSlice` says of `r`, said of `s[i..j]`, makes them equal. */
  lemma KeptSliceUnique(s: string, r: string, i0: int, i: int, j: int)
    requires KeptSlice(s, r, i0)
    requires r != [] ==> !IsTrimmable(r[0]) && !IsTrimmable(r[|r| - 1])
    requires TrimmedAt(s, i, j)
    requires i < j ==> !IsTrimmable(s[i]) && !IsTrimmable(s[j - 1])
    requires i == j ==> forall k :: 0 <= k < |s| ==> IsTrimmable(s[k])
    ensures r == s[i..j]
  {
    if r == [] {
      if i < j {
        assert false;
      }
    } else {
      assert r[0] == s[i0] && r[|r| - 1] == s[i0 + |r| - 1];
      if i < j {
        TrimmedSlicesAgree(s, i, j, i0, i0 + |r|);
      }
    }
  }

  /**
   * `trim` is determined by what it removes and keeps: any slice whose outside is trimmable
   * and whose ends are not (or which is empty, when all of `s` is trimmable) is `Trim(s)`.
   */
  lemma TrimUnique(s: string, i: int, j: int)
    requires TrimmedAt(s, i, j)
    requires i < j ==> !IsTrimmable(s[i]) && !IsTrimmable(s[j - 1])
    requires i == j ==> forall k :: 0 <= k < |s| ==> IsTrimmable(s[k])
    ensures Trim(s) == s[i..j]
  {
    var r := Trim(s);
    var i0 :| KeptSlice(s, r, i0);
    KeptSliceUnique(s, r, i0, i, j);
  }

  /** The parts in order with `sep` between neighbours: what a loop that appends a separator before every part but the first builds. */
  function JoinWith(sep: char, parts: seq<string>): string {
    if parts == [] then ""
    else if |parts| == 1 then parts[0]
    else JoinWith(sep, parts[..|parts| - 1]) + [sep] + parts[|parts| - 1]
  }

  /** Joining one more part appends a separator, unless there was nothing before, and the part. */
  lemma JoinWithSnoc(sep: char, parts: seq<string>, x: string)
    ensures JoinWith(sep, parts + [x]) == (if parts == [] then "" else JoinWith(sep, parts) + [sep]) + x
  {
    assert (parts + [x])[..|parts|] == parts;
  }

  /** JoinWithSnoc in the shape a loop with a separator variable builds: old text, separator, part. */
  lemma JoinWithSnocSep(sep: char, parts: seq<string>, x: string)
    ensures JoinWith(sep, parts + [x]) == JoinWith(sep, parts) + (if parts == [] then "" else [sep]) + x
  {
    JoinWithSnoc(sep, parts, x);
    if parts == [] {
      assert "" + "" + x == "" + x;
    }
  }

  /** A join read from the front: the first part, then a separator and the join of the others. */
  lemma {:induction false} JoinWithCons(sep: char, x: string, xs: seq<string>)
    ensures JoinWith(sep, [x] + xs) == x + (if xs == [] then "" else [sep] + JoinWith(sep, xs))
    decreases |xs|
  {
    if |xs| > 1 {
      var init := xs[..|xs| - 1];
      JoinWithCons(sep, x, init);
      assert ([x] + xs)[..|xs|] == [x] + init;
    } else if |xs| == 1 {
      assert ([x] + xs)[..1] == [x];
    }
  }

  /** JoinWithCons followed by closing text, regrouped to the right. */
  lemma JoinWithConsClosed(sep: char, x: string, xs: seq<string>, close: string)
    ensures xs == [] ==> JoinWith(sep, [x] + xs) + close == x + close
    ensures xs != [] ==> JoinWith(sep, [x] + xs) + close == x + ([sep] + (JoinWith(sep, xs) + close))
  {
    JoinWithCons(sep, x, xs);
  }

  /** The fields of `s` between occurrences of `sep`; the inverse of JoinWith for separator-free parts. */
  function Split(sep: char, s: string): (r: seq<string>)
    ensures |r| > 0
  {
    if s == [] then [""]
    else
      var init := Split(sep, s[..|s| - 1]);
      if s[|s| - 1] == sep then init + [""]
      else init[..|init| - 1] + [init[|init| - 1] + [s[|s| - 1]]]
  }

  /** Appending separator-free text to a string extends its last field. */
  lemma {:induction false} SplitExtend(sep: char, s: string, t: string)
    requires sep !in t
    ensures var f := Split(sep, s);
            Split(sep, s + t) == f[..|f| - 1] + [f[|f| - 1] + t]
    decreases |t|
  {
    if t == [] {
      SplitExtendNil(sep, s);
    } else {
      SplitExtend(sep, s, t[..|t| - 1]);
      SplitExtendStep(sep, s, t);
    }
  }

  lemma SplitExtendNil(sep: char, s: string)
    ensures var f := Split(sep, s);
            Split(sep, s + []) == f[..|f| - 1] + [f[|f| - 1] + []]
  {
    var f := Split(sep, s);
    assert s + [] == s;
    assert f[|f| - 1] + [] == f[|f| - 1];
    assert f[..|f| - 1] + [f[|f| - 1]] == f;
  }

  /** One more character that is not the separator lengthens the last field by that character. */
  lemma SplitExtendStep(sep: char, s: string, t: string)
    requires t != [] && sep !in t
    requires var f := Split(sep, s);
             Split(sep, s + t[..|t| - 1]) == f[..|f| - 1] + [f[|f| - 1] + t[..|t| - 1]]
    ensures var f := Split(sep, s);
            Split(sep, s + t) == f[..|f| - 1] + [f[|f| - 1] + t]
  {
    var f := Split(sep, s);
    var front, last := f[..|f| - 1], f[|f| - 1];
    var t', c := t[..|t| - 1], t[|t| - 1];
    assert c in t;
    DropLastOfConcat(s, t);
    SplitLastChar(sep, s + t);
    LastOfSnoc(front, last + t');
    DropLastOfConcat(last, t);
  }

  /** A last character other than the separator extends the last field of the rest. */
  lemma SplitLastChar(sep: char, u: string)
    requires u != [] && u[|u| - 1] != sep
    ensures var init := Split(sep, u[..|u| - 1]);
            Split(sep, u) == init[..|init| - 1] + [init[|init| - 1] + [u[|u| - 1]]]
  {
  }

  lemma AppendNil<T>(q: seq<T>)
    ensures q + [] == q
  {
  }

  /** A non-empty sequence is its front followed by its last element. */
  lemma InitAndLast<T>(q: seq<T>)
    requires q != []
    ensures q[..|q| - 1] + [q[|q| - 1]] == q
  {
  }

  /** Dropping the last element of a concatenation drops it from the second operand. */
  lemma DropLastOfConcat<T>(a: seq<T>, b: seq<T>)
    requires b != []
    ensures (a + b)[..|a + b| - 1] == a + b[..|b| - 1]
    ensures (a + b)[|a + b| - 1] == b[|b| - 1]
    ensures a + b == (a + b[..|b| - 1]) + [b[|b| - 1]]
  {
  }

  lemma LastOfSnoc(front: seq<string>, last: string)
    ensures var f := front + [last];
            f[..|f| - 1] == front && f[|f| - 1] == last
  {
  }

  /** Splitting undoes joining whenever no part contains the separator. */
  lemma {:induction false} SplitJoin(sep: char, parts: seq<string>)
    requires |parts| > 0
    requires forall i :: 0 <= i < |parts| ==> sep !in parts[i]
    ensures Split(sep, JoinWith(sep, parts)) == parts
    decreases |parts|
  {
    if |parts| == 1 {
      SplitSingle(sep, parts[0]);
      assert JoinWith(sep, parts) == parts[0];
      assert [parts[0]] == parts;
    } else {
      var init, last := parts[..|parts| - 1], parts[|parts| - 1];
      SplitJoin(sep, init);
      SplitJoinStep(sep, init, last);
      InitAndLast(parts);
    }
  }

  /** Text without the separator is a single field. */
  lemma SplitSingle(sep: char, p: string)
    requires sep !in p
    ensures Split(sep, p) == [p]
  {
    SplitExtend(sep, "", p);
    assert "" + p == p;
  }

  /** One more part: the split of the longer join is the split of the shorter one plus that part. */
  lemma SplitJoinStep(sep: char, init: seq<string>, last: string)
    requires |init| > 0 && sep !in last
    requires Split(sep, JoinWith(sep, init)) == init
    ensures Split(sep, JoinWith(sep, init + [last])) == init + [last]
  {
    var j := JoinWith(sep, init);
    JoinWithSnoc(sep, init, last);
    assert JoinWith(sep, init + [last]) == (j + [sep]) + last;
    SplitSep(sep, j);
    SplitExtend(sep, j + [sep], last);
    LastOfSnoc(init, "");
    assert "" + last == last;
  }

  /** A separator closes the last field and opens an empty one. */
  lemma SplitSep(sep: char, u: string)
    ensures Split(sep, u + [sep]) == Split(sep, u) + [""]
  {
    assert (u + [sep])[..|u|] == u;
  }

  predicate IsDigit(c: char) {
    '0' <= c <= '9'
  }

  predicate AllDigits(s: string) {
    forall i :: 0 <= i < |s| ==> IsDigit(s[i])
  }

  function DecimalValue(digits: string): nat
    requires AllDigits(digits)
  {
    if digits == [] then 0
    else
      assert IsDigit(digits[|digits| - 1]);
      10 * DecimalValue(digits[..|digits| - 1]) + (digits[|digits| - 1] as int - '0' as int)
  }

  /**
   * `Integer.parseInt(s)` over ASCII digits: an optional sign followed by at least one digit,
   * with a value that fits an `int`; None where Java throws NumberFormatException.
   */
  function ParseInt(s: string): (r: Option<Int32>)
    ensures r.Some? ==> |s| > 0
  {
    if |s| == 0 then None
    else
      var digits := if s[0] == '-' || s[0] == '+' then s[1..] else s;
      if |digits| == 0 || !AllDigits(digits) then None
      else
        var magnitude: int := DecimalValue(digits);
        var v: int := if s[0] == '-' then -magnitude else magnitude;
        if MinInt32 <= v <= MaxInt32 then Some(v) else None
  }

  /** An unsigned run of digits whose value fits an `int` parses to that value. */
  lemma ParseIntDigits(d: string)
    requires |d| > 0 && AllDigits(d)
    requires DecimalValue(d) <= MaxInt32
    ensures ParseInt(d) == Some(DecimalValue(d))
  {
  }

  /** A minus sign before a run of digits negates its value, down to `Integer.MIN_VALUE`. */
  lemma ParseIntNegated(d: string)
    requires |d| > 0 && AllDigits(d)
    requires DecimalValue(d) <= -MinInt32
    ensures ParseInt(['-'] + d) == Some(-(DecimalValue(d) as int))
  {
    assert (['-'] + d)[1..] == d;
  }

  /** Text that starts with neither a sign nor a digit (leading blanks included) does not parse. */
  lemma ParseIntRejectsLead(s: string)
    requires |s| > 0 && !IsDigit(s[0]) && s[0] != '-' && s[0] != '+'
    ensures ParseInt(s) == None
  {
    assert !AllDigits(s) by {
      assert !IsDigit(s[0]);
    }
  }
}
