/** src/shared/validators/apiKeyValidator.ts: the `ipRestrictions` rule of
    `validateCreateApiKeyBody`. Each entry must match the anchored pattern
    `^(octet\.){3}octet(\/prefix)?$`, where an octet is `25[0-5]|2[0-4][0-9]|[01]?[0-9][0-9]?`
    and a prefix is `[0-9]|[1-2][0-9]|3[0-2]`. */
module ApiKeyValidator {
  import opened JsSemantics
  import IpHelpers

  const ARRAY_MESSAGE: string := "IP restrictions must be an array"
  const INVALID_MESSAGE: string :=
    "One or more IP addresses are invalid. Use CIDR notation for IP ranges (e.g., 192.168.1.0/24)"

  // ---------------------------------------------------------------------------
  // The pattern, alternative by alternative

  /** `25[0-5] | 2[0-4][0-9] | [01]?[0-9][0-9]?`, the last written out by the presence
      of its two optional parts. */
  predicate OctetPattern(s: string)
  {
    || (|s| == 3 && s[0] == '2' && s[1] == '5' && '0' <= s[2] <= '5')
    || (|s| == 3 && s[0] == '2' && '0' <= s[1] <= '4' && IsDigit(s[2]))
    || (|s| == 1 && IsDigit(s[0]))
    || (|s| == 2 && IsDigit(s[0]) && IsDigit(s[1]))
    || (|s| == 2 && (s[0] == '0' || s[0] == '1') && IsDigit(s[1]))
    || (|s| == 3 && (s[0] == '0' || s[0] == '1') && IsDigit(s[1]) && IsDigit(s[2]))
  }

  /** `[0-9] | [1-2][0-9] | 3[0-2]`. */
  predicate PrefixPattern(p: string)
  {
    || (|p| == 1 && IsDigit(p[0]))
    || (|p| == 2 && '1' <= p[0] <= '2' && IsDigit(p[1]))
    || (|p| == 2 && p[0] == '3' && '0' <= p[1] <= '2')
  }

  /** `(?:\/prefix)?$`: what follows the last octet. */
  predicate SuffixPattern(t: string)
  {
    t == [] || (t[0] == '/' && PrefixPattern(t[1..]))
  }

  /** The last dot-separated part: an octet, then the optional suffix. The octet is
      made of digits and what follows it is empty or starts with '/', so it is the
      part's longest run of leading digits. */
  predicate LastPart(t: string)
  {
    var d := DigitPrefix(t);
    OctetPattern(d) && SuffixPattern(t[|d|..])
  }

  /** `ipRegex.test(s)` on a string. No octet or prefix contains '.', so the three
      dots of the pattern are exactly the dots of the string. */
  predicate IpPattern(s: string)
  {
    var parts := Split(s, '.');
    |parts| == 4 && OctetPattern(parts[0]) && OctetPattern(parts[1]) && OctetPattern(parts[2])
    && LastPart(parts[3])
  }

  // ---------------------------------------------------------------------------
  // What the alternatives accept

  lemma DigitsValueTwo(s: string)
    requires |s| == 2 && AllDigits(s)
    ensures DigitsValue(s) == 10 * DigitValue(s[0]) + DigitValue(s[1])
  {
    assert s[..1][..0] == [];
    assert DigitsValue(s[..1]) == DigitValue(s[0]);
  }

  lemma DigitsValueThree(s: string)
    requires |s| == 3 && AllDigits(s)
    ensures DigitsValue(s) == 100 * DigitValue(s[0]) + 10 * DigitValue(s[1]) + DigitValue(s[2])
  {
    DigitsValueTwo(s[..2]);
  }

  /** An octet of the pattern is exactly a decimal numeral of one to three digits,
      leading zeros allowed, whose value is at most 255. */
  lemma OctetIff(s: string)
    ensures OctetPattern(s) <==> 1 <= |s| <= 3 && AllDigits(s) && DigitsValue(s) <= 255
  {
    if |s| == 2 && AllDigits(s) {
      DigitsValueTwo(s);
    }
    if |s| == 3 && AllDigits(s) {
      DigitsValueThree(s);
    }
  }

  /** A prefix of the pattern is exactly a decimal numeral of value 0 to 32 written
      without a leading zero ("05" is refused, "0" is not). */
  lemma PrefixIff(p: string)
    ensures PrefixPattern(p) <==>
      1 <= |p| <= 2 && AllDigits(p) && !(|p| == 2 && p[0] == '0') && DigitsValue(p) <= 32
  {
    if |p| == 2 && AllDigits(p) {
      DigitsValueTwo(p);
    }
  }

  // ---------------------------------------------------------------------------
  // The whole pattern

  lemma LastPartPlain(d: string)
    requires AllDigits(d)
    ensures LastPart(d) <==> OctetPattern(d)
  {
    DigitPrefixOf(d, []);
    assert d + [] == d;
  }

  lemma LastPartPrefixed(d: string, p: string)
    requires AllDigits(d)
    ensures LastPart(d + "/" + p) <==> OctetPattern(d) && PrefixPattern(p)
  {
    DigitPrefixOf(d, "/" + p);
    assert d + "/" + p == d + ("/" + p);
    assert (d + "/" + p)[|d|..] == "/" + p;
    assert ("/" + p)[1..] == p;
  }

  lemma DotsOfQuad(a: string, b: string, c: string, d: string)
    requires '.' !in a && '.' !in b && '.' !in c && '.' !in d
    ensures Split(a + "." + b + "." + c + "." + d, '.') == [a, b, c, d]
  {
    IpHelpers.SplitQuad(a, b, c, d);
  }

  /** A dotted quad without a prefix matches iff its four parts are octets. */
  lemma PlainEntry(a: string, b: string, c: string, d: string)
    requires '.' !in a && '.' !in b && '.' !in c && AllDigits(d)
    ensures IpPattern(a + "." + b + "." + c + "." + d) <==>
      OctetPattern(a) && OctetPattern(b) && OctetPattern(c) && OctetPattern(d)
  {
    NoDot(d);
    DotsOfQuad(a, b, c, d);
    LastPartPlain(d);
  }

  /** A dotted quad followed by `/p` matches iff its four parts are octets and `p`
      is a prefix. */
  lemma PrefixedEntry(a: string, b: string, c: string, d: string, p: string)
    requires '.' !in a && '.' !in b && '.' !in c && AllDigits(d) && '.' !in p
    ensures IpPattern(a + "." + b + "." + c + "." + d + "/" + p) <==>
      OctetPattern(a) && OctetPattern(b) && OctetPattern(c) && OctetPattern(d) && PrefixPattern(p)
  {
    var last := d + "/" + p;
    NoDot(d);
    assert '.' !in last;
    assert a + "." + b + "." + c + "." + d + "/" + p == a + "." + b + "." + c + "." + last;
    DotsOfQuad(a, b, c, last);
    LastPartPrefixed(d, p);
  }

  /** Conversely, every string the pattern accepts is a dotted quad of octets,
      optionally followed by '/' and a prefix. */
  lemma IpPatternShape(s: string)
    requires IpPattern(s)
    ensures var parts := Split(s, '.');
      var d := DigitPrefix(parts[3]);
      s == parts[0] + "." + parts[1] + "." + parts[2] + "." + parts[3]
      && OctetPattern(parts[0]) && OctetPattern(parts[1]) && OctetPattern(parts[2]) && OctetPattern(d)
      && (parts[3] == d || (|parts[3]| > |d| && parts[3] == d + "/" + parts[3][|d| + 1..] && PrefixPattern(parts[3][|d| + 1..])))
  {
    JoinSplit(s, '.');
    JoinFour(Split(s, '.'));
    LastPartShape(Split(s, '.')[3]);
  }

  lemma JoinFour(parts: seq<string>)
    requires |parts| == 4
    ensures Join(parts, ['.']) == parts[0] + "." + parts[1] + "." + parts[2] + "." + parts[3]
  {
    assert parts[1..][1..] == parts[2..];
    assert parts[2..][1..] == parts[3..];
    assert Join(parts[3..], ['.']) == parts[3];
    assert Join(parts[2..], ['.']) == parts[2] + "." + parts[3];
    assert Join(parts[1..], ['.']) == parts[1] + "." + (parts[2] + "." + parts[3]);
  }

  lemma LastPartShape(t: string)
    requires LastPart(t)
    ensures var d := DigitPrefix(t);
      t == d || (|t| > |d| && t == d + "/" + t[|d| + 1..] && PrefixPattern(t[|d| + 1..]))
  {
    var d := DigitPrefix(t);
    assert t == d + t[|d|..];
    if |t| > |d| {
      assert t[|d|..] == "/" + t[|d| + 1..];
    }
  }

  // ---------------------------------------------------------------------------
  // Entries seen by the regex, and the list rule

  /** `String(v)`: what `RegExp.prototype.test` matches when an entry is not a string.
      Array elements that are null are written as empty text. */
  function ToJsString(v: Json): string
  {
    match v
    case JNull => "null"
    case JBool(b) => if b then "true" else "false"
    case JNum(n) => IntToString(n)
    case JStr(s) => s
    case JArr(items) => ElementsText(items)
    case JObj(_) => "[object Object]"
  }

  /** `items.join(",")` with null elements written as empty text. */
  function ElementsText(items: seq<Json>): string
  {
    if items == [] then ""
    else
      (if items[0] == JNull then "" else ToJsString(items[0]))
      + (if |items| == 1 then "" else "," + ElementsText(items[1..]))
  }

  /** `ipRegex.test(ip)` for one entry of the list. */
  predicate EntryValid(v: Json)
  {
    IpPattern(ToJsString(v))
  }

  /** The messages the `ipRestrictions` chain contributes: `optional()` skips an absent
      field; `isArray()` refuses anything else that is not an array; the custom rule
      returns true for a non-array, and otherwise accepts iff every entry matches. */
  function IpRestrictionsErrors(field: Option<Json>): (errors: seq<string>)
    ensures field.None? ==> errors == []
    ensures field.Some? && !field.value.JArr? ==> errors == [ARRAY_MESSAGE]
    ensures field.Some? && field.value.JArr? ==>
      (errors == [] <==> forall k :: 0 <= k < |field.value.items| ==> EntryValid(field.value.items[k]))
    ensures errors != [] ==> |errors| == 1 && (errors[0] == ARRAY_MESSAGE || errors[0] == INVALID_MESSAGE)
  {
    match field
    case None => []
    case Some(JArr(items)) =>
      if forall k :: 0 <= k < |items| ==> EntryValid(items[k]) then [] else [INVALID_MESSAGE]
    case Some(_) => [ARRAY_MESSAGE]
  }

  /** The empty list is accepted: `every` on no entries is true. */
  lemma EmptyListValid()
    ensures IpRestrictionsErrors(Some(JArr([]))) == []
  {
  }

  /** Adding an entry keeps the list valid iff the entry itself is valid. */
  lemma ListExtension(items: seq<Json>, v: Json)
    requires IpRestrictionsErrors(Some(JArr(items))) == []
    ensures IpRestrictionsErrors(Some(JArr(items + [v]))) == [] <==> EntryValid(v)
  {
    AllSnoc(items, v, EntryValid);
  }

  lemma AllSnoc<T>(items: seq<T>, v: T, p: T -> bool)
    ensures (forall k :: 0 <= k < |items + [v]| ==> p((items + [v])[k])) <==>
            (forall k :: 0 <= k < |items| ==> p(items[k])) && p(v)
  {
    assert (items + [v])[|items|] == v;
    assert forall k :: 0 <= k < |items| ==> (items + [v])[k] == items[k];
  }

  // ---------------------------------------------------------------------------
  // Examples of the rule's edges

  lemma Octets()
    ensures OctetPattern("001") && OctetPattern("255") && OctetPattern("0")
    ensures !OctetPattern("256") && !OctetPattern("0001") && !OctetPattern("")
  {
  }

  /** "/33", "/05" and a bare "/" are refused; "/0" and "/32" are accepted. */
  lemma Prefixes()
    ensures !PrefixPattern("33") && !PrefixPattern("05") && !PrefixPattern("")
    ensures PrefixPattern("0") && PrefixPattern("32") && PrefixPattern("24")
  {
  }

  /** After a quad of octets, a prefix out of range, a prefix with a leading zero and a
      bare '/' are refused. */
  lemma RefusedPrefixes(a: string, b: string, c: string, d: string)
    requires OctetPattern(a) && OctetPattern(b) && OctetPattern(c) && OctetPattern(d)
    ensures !IpPattern(a + "." + b + "." + c + "." + d + "/" + "33")
    ensures !IpPattern(a + "." + b + "." + c + "." + d + "/" + "05")
    ensures !IpPattern(a + "." + b + "." + c + "." + d + "/" + "")
  {
    OctetIff(a);
    OctetIff(b);
    OctetIff(c);
    OctetIff(d);
    PrefixedEntry(a, b, c, d, "33");
    PrefixedEntry(a, b, c, d, "05");
    PrefixedEntry(a, b, c, d, "");
  }

  /** The match is anchored: a space before the first octet or after the last refuses
      an otherwise valid quad. */
  lemma AnchoredMatch(a: string, b: string, c: string, d: string)
    requires OctetPattern(a) && OctetPattern(b) && OctetPattern(c) && OctetPattern(d)
    ensures !IpPattern(" " + a + "." + b + "." + c + "." + d)
    ensures !IpPattern(a + "." + b + "." + c + "." + d + " ")
  {
    OctetIff(a);
    OctetIff(b);
    OctetIff(c);
    OctetIff(d);
    NoDot(a);
    NoDot(b);
    NoDot(c);
    NoDot(d);
    assert " " + a + "." + b + "." + c + "." + d == (" " + a) + "." + b + "." + c + "." + d;
    PlainEntry(" " + a, b, c, d);
    assert '.' !in d + " ";
    assert a + "." + b + "." + c + "." + d + " " == a + "." + b + "." + c + "." + (d + " ");
    DotsOfQuad(a, b, c, d + " ");
    DigitPrefixOf(d, " ");
    assert (d + " ")[|d|..] == " ";
  }

  /** An accepted entry with another dot-separated part added on either side is refused. */
  lemma NoFifthPart(s: string, x: string)
    requires IpPattern(s)
    ensures !IpPattern(s + "." + x) && !IpPattern(x + "." + s)
  {
    SplitAppend(s, '.', x);
    SplitAppend(x, '.', s);
  }

  lemma NoDot(d: string)
    requires AllDigits(d)
    ensures '.' !in d
  {
  }

  /** Entries are matched as text: a number never matches, while a one-element array
      holding an address reads as that address. */
  lemma CoercedEntries(n: int, s: string)
    ensures !EntryValid(JNum(n))
    ensures EntryValid(JArr([JStr(s)])) <==> EntryValid(JStr(s))
  {
    var t := IntToString(n);
    if n < 0 {
      NoDot(NatToString(-n));
      assert t == "-" + NatToString(-n);
    } else {
      NoDot(t);
    }
    assert '.' !in t;
    assert Split(t, '.') == [t];
    assert ElementsText([JStr(s)]) == s;
  }

  // ---------------------------------------------------------------------------
  // What an accepted restriction means to isIpInCidr

  /** The decimal value of an octet of the pattern. */
  function OctetValue(s: string): (v: nat)
    requires OctetPattern(s)
    ensures AllDigits(s) && v == DigitsValue(s) && v <= 255
  {
    OctetIff(s);
    DigitsValue(s)
  }

  /** `parseInt` reads an octet of the pattern as its decimal value. */
  lemma OctetReads(s: string)
    requires OctetPattern(s)
    ensures IpHelpers.PartReads(s, OctetValue(s))
  {
    OctetIff(s);
    ParseIntDigits(s, []);
    assert s + [] == s;
  }

  /** An accepted dotted quad names the address a·2^24 + b·2^16 + c·2^8 + d, leading
      zeros notwithstanding. */
  lemma AcceptedAddress(a: string, b: string, c: string, d: string)
    requires OctetPattern(a) && OctetPattern(b) && OctetPattern(c) && OctetPattern(d)
    ensures IpHelpers.IpToInt(a + "." + b + "." + c + "." + d) ==
      OctetValue(a) * 0x100_0000 + OctetValue(b) * 0x1_0000 + OctetValue(c) * 0x100 + OctetValue(d)
  {
    OctetReads(a);
    OctetReads(b);
    OctetReads(c);
    OctetReads(d);
    IpHelpers.IpToIntQuad(a, b, c, d, OctetValue(a), OctetValue(b), OctetValue(c), OctetValue(d));
  }

  /** The decimal value of a prefix of the pattern. */
  function PrefixValue(p: string): (n: nat)
    requires PrefixPattern(p)
    ensures AllDigits(p) && n == DigitsValue(p) && n <= 32
  {
    PrefixIff(p);
    DigitsValue(p)
  }

  /** `parseInt` reads a prefix of the pattern as its decimal value. */
  lemma PrefixReads(p: string)
    requires PrefixPattern(p)
    ensures '/' !in p && ParseInt(p) == Int(PrefixValue(p))
  {
    var n := PrefixValue(p);
    ParseIntDigits(p, []);
    assert p + [] == p;
    NoSlash(p);
  }

  lemma NoSlash(d: string)
    requires AllDigits(d)
    ensures '/' !in d
  {
  }

  /** An accepted prefix `/p` after a range without '/' makes `isIpInCidr` a match on
      the top p bits, except that p = 0 (like p = 32) compares the whole address,
      because the shift count 32 wraps to 0. */
  lemma AcceptedRange(ip: string, range: string, p: string)
    requires '/' !in range && PrefixPattern(p)
    ensures var n := PrefixValue(p);
      IpHelpers.IsIpInCidr(ip, range + "/" + p) <==>
        if n == 0 || n == 32 then IpHelpers.IpToInt(ip) == IpHelpers.IpToInt(range)
        else IpHelpers.IpToInt(ip) / IpHelpers.Pow2(32 - n) == IpHelpers.IpToInt(range) / IpHelpers.Pow2(32 - n)
  {
    PrefixReads(p);
    var n := PrefixValue(p);
    if n == 0 || n == 32 {
      IpHelpers.CidrExactMatch(ip, range, p);
    } else {
      IpHelpers.CidrPrefixMatch(ip, range, p, n);
    }
  }
}
