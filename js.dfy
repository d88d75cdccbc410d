/** The few pieces of JavaScript runtime behaviour that the request pipeline relies on:
    optional values, parsed JSON bodies, truthiness, `parseInt(s, 10)`, the 32-bit
    integer conversions behind the bitwise operators, and the string methods
    `split`, `join`, `trim` and `replace` with a plain string pattern. */
module JsSemantics {

  /** `undefined` (None) or a present value (Some). */
  datatype Option<+T> = None | Some(value: T)

  /** A parsed JSON value. Numbers are integers here; fractional numbers are not modelled. */
  datatype Json =
    | JNull
    | JBool(b: bool)
    | JNum(n: int)
    | JStr(s: string)
    | JArr(items: seq<Json>)
    | JObj(fields: map<string, Json>)

  /** JavaScript truthiness of a JSON value: null, false, 0 and "" are falsy. */
  predicate Truthy(v: Json)
  {
    match v
    case JNull => false
    case JBool(b) => b
    case JNum(n) => n != 0
    case JStr(s) => s != ""
    case _ => true
  }

  /** `x || fallback` on an optional string: undefined and "" fall back. */
  function OrElse(x: Option<string>, fallback: string): (r: string)
    ensures x.Some? && x.value != "" ==> r == x.value
    ensures (x.None? || x.value == "") ==> r == fallback
  {
    if x.Some? && x.value != "" then x.value else fallback
  }

  /** An optional argument or attribute: the given value, or `base` when it is
      undefined (a default parameter, or an attribute an object spread leaves out). */
  function Keep<T>(given: Option<T>, base: T): (v: T)
    ensures given.Some? ==> v == given.value
    ensures given.None? ==> v == base
  {
    if given.Some? then given.value else base
  }

  /** `x || null` on an optional string: the value if it is a non-empty string, else null. */
  function NonEmptyOrNull(x: Option<string>): (r: Option<string>)
    ensures r.Some? <==> x.Some? && x.value != ""
    ensures r.Some? ==> r == x
  {
    if x.Some? && x.value != "" then x else None
  }

  // ---------------------------------------------------------------------------
  // Numbers

  /** A JavaScript number produced by `parseInt` or by integer arithmetic on such numbers. */
  datatype Num = NaN | Int(i: int)

  const TWO_32: int := 0x1_0000_0000
  const TWO_31: int := 0x8000_0000

  /** The ToUint32 conversion (used by `>>> 0`): NaN becomes 0, other values wrap modulo 2^32. */
  function ToUint32(n: Num): (r: int)
    ensures 0 <= r < TWO_32
    ensures n.Int? && 0 <= n.i < TWO_32 ==> r == n.i
  {
    match n
    case NaN => 0
    case Int(i) => i % TWO_32
  }

  /** The ToInt32 conversion (used by `<<`, `&`, `~`): NaN becomes 0, values wrap into [-2^31, 2^31). */
  function ToInt32(n: Num): (r: int)
    ensures -TWO_31 <= r < TWO_31
    ensures n.Int? ==> (r - n.i) % TWO_32 == 0
    ensures n.Int? && -TWO_31 <= n.i < TWO_31 ==> r == n.i
  {
    match n
    case NaN => 0
    case Int(i) => (i + TWO_31) % TWO_32 - TWO_31
  }

  /** `a + b` where `a` is an integer and `b` may be NaN. */
  function AddNum(a: int, b: Num): (r: Num)
    ensures r.NaN? <==> b.NaN?
  {
    match b
    case NaN => NaN
    case Int(j) => Int(a + j)
  }

  predicate IsDigit(c: char) { '0' as int <= c as int <= '9' as int }

  predicate AllDigits(s: string) { forall i :: 0 <= i < |s| ==> IsDigit(s[i]) }

  function DigitValue(c: char): (d: nat)
    requires IsDigit(c)
    ensures d <= 9
  {
    (c as int) - ('0' as int)
  }

  /** The value of a decimal digit string, most significant digit first. */
  function DigitsValue(s: string): (v: nat)
    requires AllDigits(s)
  {
    if s == [] then 0 else DigitsValue(s[..|s| - 1]) * 10 + DigitValue(s[|s| - 1])
  }

  /** The longest prefix of `s` made of decimal digits. */
  function DigitPrefix(s: string): (p: string)
    ensures p <= s && AllDigits(p)
    ensures |p| < |s| ==> !IsDigit(s[|p|])
  {
    if s == [] || !IsDigit(s[0]) then [] else [s[0]] + DigitPrefix(s[1..])
  }

  /** The characters `parseInt` and `String.prototype.trim` skip: JavaScript's
      WhiteSpace and LineTerminator productions (Unicode category Zs listed explicitly). */
  predicate IsJsSpace(c: char)
  {
    c == '\t' || c == '\n' || c == '\r' || c == ' ' || c == 0x0B as char || c == 0x0C as char
    || c == 0xA0 as char || c == 0x1680 as char || (0x2000 as char <= c <= 0x200A as char)
    || c == 0x2028 as char || c == 0x2029 as char || c == 0x202F as char
    || c == 0x205F as char || c == 0x3000 as char || c == 0xFEFF as char
  }

  /** `s` without its leading JavaScript white space. */
  function TrimStart(s: string): (r: string)
    ensures |r| <= |s| && r == s[|s| - |r|..]
    ensures r != [] ==> !IsJsSpace(r[0])
    ensures forall i :: 0 <= i < |s| - |r| ==> IsJsSpace(s[i])
  {
    if s != [] && IsJsSpace(s[0]) then TrimStart(s[1..]) else s
  }

  /** `s` without its trailing JavaScript white space. */
  function TrimEnd(s: string): (r: string)
    ensures r <= s
    ensures r != [] ==> !IsJsSpace(r[|r| - 1])
    ensures forall i :: |r| <= i < |s| ==> IsJsSpace(s[i])
  {
    if s != [] && IsJsSpace(s[|s| - 1]) then TrimEnd(s[..|s| - 1]) else s
  }

  /** `String.prototype.trim`. */
  function Trim(s: string): (r: string)
  {
    TrimEnd(TrimStart(s))
  }

  /** `parseInt(s, 10)`: skip leading white space, read an optional sign, then the
      longest run of decimal digits; NaN when that run is empty. Values beyond 2^53
      are exact here, while JavaScript rounds them. */
  function ParseInt(s: string): (r: Num)
  {
    var t := TrimStart(s);
    var negative := |t| > 0 && t[0] == '-';
    var u := if |t| > 0 && (t[0] == '-' || t[0] == '+') then t[1..] else t;
    var d := DigitPrefix(u);
    if d == [] then NaN
    else
      var v: int := DigitsValue(d);
      if negative then Int(-v) else Int(v)
  }

  /** Decimal text of a natural number, without leading zeros. */
  function NatToString(n: nat): (s: string)
    ensures |s| >= 1 && AllDigits(s)
    ensures n < 10 <==> |s| == 1
    decreases n
  {
    if n < 10 then [('0' as int + n) as char]
    else NatToString(n / 10) + [('0' as int + n % 10) as char]
  }

  /** `String(n)` for an integer. */
  function IntToString(n: int): (s: string)
    ensures |s| >= 1
  {
    if n < 0 then "-" + NatToString(-n) else NatToString(n)
  }

  // ---------------------------------------------------------------------------
  // Strings

  /** The index of the first `c` in `s`. */
  function IndexOf(s: string, c: char): (i: nat)
    requires c in s
    ensures i < |s| && s[i] == c && c !in s[..i]
  {
    if s[0] == c then 0 else 1 + IndexOf(s[1..], c)
  }

  /** `s.split(sep)` for a one-character separator. */
  function Split(s: string, sep: char): (parts: seq<string>)
    ensures |parts| >= 1
    ensures sep !in s ==> parts == [s]
    ensures sep in s ==> |parts| >= 2
    ensures forall k :: 0 <= k < |parts| ==> sep !in parts[k]
    decreases |s|
  {
    if sep !in s then [s]
    else
      var i := IndexOf(s, sep);
      [s[..i]] + Split(s[i + 1..], sep)
  }

  /** `parts.join(sep)`. */
  function Join(parts: seq<string>, sep: string): (s: string)
  {
    if parts == [] then ""
    else if |parts| == 1 then parts[0]
    else parts[0] + sep + Join(parts[1..], sep)
  }

  /** `pattern` occurs in `s` starting at index `j`. */
  predicate OccursAt(s: string, pattern: string, j: int)
  {
    0 <= j && j + |pattern| <= |s| && s[j..j + |pattern|] == pattern
  }

  /** An occurrence at `j >= 1` is an occurrence at `j - 1` in the tail. */
  lemma OccursAtTail(s: string, pattern: string, j: int)
    requires 1 <= j && s != []
    ensures OccursAt(s, pattern, j) <==> OccursAt(s[1..], pattern, j - 1)
  {
    if j + |pattern| <= |s| {
      var x, y := s[j..j + |pattern|], s[1..][j - 1..j - 1 + |pattern|];
      forall k | 0 <= k < |pattern| ensures x[k] == y[k] {
        assert x[k] == s[j + k] && y[k] == s[1..][j - 1 + k];
      }
      assert x == y;
    }
  }

  /** The index of the first occurrence of `pattern` in `s`, if any. */
  function FindFirst(s: string, pattern: string): (r: Option<nat>)
    ensures r.Some? ==> OccursAt(s, pattern, r.value)
    ensures r.Some? ==> forall j :: 0 <= j < r.value ==> !OccursAt(s, pattern, j)
    ensures r.None? ==> forall j :: !OccursAt(s, pattern, j)
    decreases |s|
  {
    if |pattern| > |s| then None
    else if s[..|pattern|] == pattern then Some(0)
    else
      var rest := FindFirst(s[1..], pattern);
      assert forall j :: 1 <= j ==> (OccursAt(s, pattern, j) <==> OccursAt(s[1..], pattern, j - 1)) by {
        forall j | 1 <= j ensures OccursAt(s, pattern, j) <==> OccursAt(s[1..], pattern, j - 1) {
          OccursAtTail(s, pattern, j);
        }
      }
      match rest
      case None => None
      case Some(k) => Some(k + 1)
  }

  /** `s.replace(pattern, replacement)` with a plain string pattern: only the first occurrence is replaced. */
  function ReplaceFirst(s: string, pattern: string, replacement: string): (r: string)
  {
    match FindFirst(s, pattern)
    case None => s
    case Some(i) => s[..i] + replacement + s[i + |pattern|..]
  }

  // ---------------------------------------------------------------------------
  // Lemmas

  /** Joining the pieces of a split with the separator restores the string. */
  lemma {:induction false} JoinSplit(s: string, sep: char)
    ensures Join(Split(s, sep), [sep]) == s
    decreases |s|
  {
    if sep in s {
      var i := IndexOf(s, sep);
      var rest := s[i + 1..];
      JoinSplit(rest, sep);
      assert Split(s, sep) == [s[..i]] + Split(rest, sep);
      assert s == s[..i] + [sep] + rest;
    }
  }

  /** IndexOf finds the first occurrence. */
  lemma {:induction false} IndexOfFirst(s: string, c: char, k: nat)
    requires k < |s| && s[k] == c && c !in s[..k]
    ensures IndexOf(s, c) == k
  {
    if k > 0 {
      assert s[0] == s[..k][0];
      assert s[1..][..k - 1] == s[1..k];
      assert s[1..k] == s[..k][1..];
      IndexOfFirst(s[1..], c, k - 1);
    }
  }

  /** Splitting `a + [sep] + b` where `a` holds no separator yields `a` followed by the pieces of `b`. */
  lemma SplitCons(a: string, sep: char, b: string)
    requires sep !in a
    ensures Split(a + [sep] + b, sep) == [a] + Split(b, sep)
  {
    var s := a + [sep] + b;
    assert s[..|a|] == a;
    IndexOfFirst(s, sep, |a|);
    assert s[|a| + 1..] == b;
  }

  /** Splitting `a + [sep] + b` yields the pieces of `a` followed by the pieces of `b`. */
  lemma {:induction false} SplitAppend(a: string, sep: char, b: string)
    ensures Split(a + [sep] + b, sep) == Split(a, sep) + Split(b, sep)
    decreases |a|
  {
    if sep !in a {
      SplitCons(a, sep, b);
    } else {
      var i := IndexOf(a, sep);
      var first, rest := a[..i], a[i + 1..];
      SplitAppend(rest, sep, b);
      SplitAppendStep(first, sep, rest, b);
      Regroup(a, i, sep, b);
    }
  }

  lemma Regroup(a: string, i: nat, sep: char, b: string)
    requires i < |a| && a[i] == sep
    ensures a == a[..i] + [sep] + a[i + 1..]
    ensures a + [sep] + b == a[..i] + [sep] + (a[i + 1..] + [sep] + b)
  {
  }

  lemma SplitAppendStep(first: string, sep: char, rest: string, b: string)
    requires sep !in first
    requires Split(rest + [sep] + b, sep) == Split(rest, sep) + Split(b, sep)
    ensures Split(first + [sep] + (rest + [sep] + b), sep) == Split(first + [sep] + rest, sep) + Split(b, sep)
  {
    SplitCons(first, sep, rest + [sep] + b);
    SplitCons(first, sep, rest);
    ConcatAssoc([first], Split(rest, sep), Split(b, sep));
  }

  lemma ConcatAssoc<T>(x: seq<T>, y: seq<T>, z: seq<T>)
    ensures x + (y + z) == (x + y) + z
  {
  }

  /** The digit prefix of a digit string followed by a non-digit (or nothing) is that digit string. */
  lemma {:induction false} DigitPrefixOf(d: string, rest: string)
    requires AllDigits(d)
    requires rest == [] || !IsDigit(rest[0])
    ensures DigitPrefix(d + rest) == d
    decreases |d|
  {
    if d != [] {
      assert (d + rest)[1..] == d[1..] + rest;
      DigitPrefixOf(d[1..], rest);
      assert d == [d[0]] + d[1..];
    } else {
      assert d + rest == rest;
    }
  }

  /** `parseInt` of a digit string followed by text that does not start with a digit
      reads exactly the digits: trailing characters are ignored. */
  lemma ParseIntDigits(d: string, rest: string)
    requires d != [] && AllDigits(d)
    requires rest == [] || !IsDigit(rest[0])
    ensures ParseInt(d + rest) == Int(DigitsValue(d))
  {
    var s := d + rest;
    assert !IsJsSpace(s[0]);
    assert TrimStart(s) == s;
    DigitPrefixOf(d, rest);
  }

  /** `parseInt` of a string that does not start with white space, a sign or a digit is NaN. */
  lemma ParseIntNoDigits(s: string)
    requires s == [] || (!IsJsSpace(s[0]) && s[0] != '-' && s[0] != '+' && !IsDigit(s[0]))
    ensures ParseInt(s) == NaN
  {
  }

  /** The decimal value of NatToString(n) is n. */
  lemma {:induction false} NatToStringValue(n: nat)
    ensures DigitsValue(NatToString(n)) == n
    decreases n
  {
    if n >= 10 {
      NatToStringValue(n / 10);
      var s := NatToString(n);
      assert s[..|s| - 1] == NatToString(n / 10);
    }
  }

  /** `parseInt` of the decimal text of a natural number gives the number back. */
  lemma ParseIntOfNat(m: nat)
    ensures ParseInt(NatToString(m)) == Int(m)
  {
    var digits := NatToString(m);
    NatToStringValue(m);
    assert digits + [] == digits;
    ParseIntDigits(digits, []);
  }

  /** `parseInt` of a minus sign followed by digits is the negated value of the digits. */
  lemma ParseIntNegative(d: string)
    requires d != [] && AllDigits(d)
    ensures ParseInt("-" + d) == Int(-(DigitsValue(d) as int))
  {
    var s := "-" + d;
    assert s[0] == '-' && s[1..] == d;
    assert TrimStart(s) == s by {
      assert !IsJsSpace(s[0]);
    }
    assert DigitPrefix(d) == d by {
      DigitPrefixOf(d, []);
      assert d + [] == d;
    }
  }

  /** `parseInt(String(n), 10)` gives `n` back. */
  lemma ParseIntOfString(n: int)
    ensures ParseInt(IntToString(n)) == Int(n)
  {
    if n < 0 {
      var m: nat := -n;
      var digits := NatToString(m);
      assert IntToString(n) == "-" + digits;
      NatToStringValue(m);
      ParseIntNegative(digits);
    } else {
      ParseIntOfNat(n);
    }
  }

  /** Replacing a pattern that does not occur leaves the string unchanged. */
  lemma ReplaceFirstAbsent(s: string, pattern: string, replacement: string)
    requires forall j :: !OccursAt(s, pattern, j)
    ensures ReplaceFirst(s, pattern, replacement) == s
  {
  }

  /** When `a` holds no earlier occurrence, exactly the occurrence after `a` is replaced. */
  lemma ReplaceFirstAt(a: string, pattern: string, b: string, replacement: string)
    requires forall j :: 0 <= j < |a| ==> !OccursAt(a + pattern + b, pattern, j)
    ensures ReplaceFirst(a + pattern + b, pattern, replacement) == a + replacement + b
  {
    var s := a + pattern + b;
    assert s[|a|..|a| + |pattern|] == pattern;
    assert OccursAt(s, pattern, |a|);
    var r := FindFirst(s, pattern);
    assert r.Some? && r.value == |a|;
    assert s[..|a|] == a;
    assert s[|a| + |pattern|..] == b;
  }
}
