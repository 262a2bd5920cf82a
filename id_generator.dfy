/**
 * Part id construction. A name is sanitised by lowering it, replacing every
 * character outside [a-z0-9] by '-', collapsing runs of '-' and removing one
 * leading and one trailing '-'. The id formats append a suffix to the result.
 * Lower-casing is modelled on ASCII; the random suffix and the ObjectId are inputs.
 */
module IdGenerator {

  predicate IsLowerAlnum(c: char) {
    ('a' <= c <= 'z') || ('0' <= c <= '9')
  }

  /** A character that can appear in a sanitised name. */
  predicate IsIdChar(c: char) {
    IsLowerAlnum(c) || c == '-'
  }

  predicate AllIdChars(s: string) {
    forall i :: 0 <= i < |s| ==> IsIdChar(s[i])
  }

  predicate NoDoubleDash(s: string) {
    forall i :: 0 <= i < |s| - 1 ==> !(s[i] == '-' && s[i + 1] == '-')
  }

  predicate NoEdgeDash(s: string) {
    |s| > 0 ==> s[0] != '-' && s[|s| - 1] != '-'
  }

  /** What a sanitised name looks like. */
  predicate IsSanitized(s: string) {
    AllIdChars(s) && NoDoubleDash(s) && NoEdgeDash(s)
  }

  function LowerChar(c: char): char {
    if 'A' <= c <= 'Z' then (c as int + 32) as char else c
  }

  /** `toLowerCase`, on ASCII letters. */
  function ToLower(s: string): (r: string)
    ensures |r| == |s|
    ensures forall i :: 0 <= i < |s| ==> r[i] == LowerChar(s[i])
  {
    if s == [] then [] else [LowerChar(s[0])] + ToLower(s[1..])
  }

  /** `replace(/[^a-z0-9]/g, '-')`. */
  function DashNonAlnum(s: string): (r: string)
    ensures |r| == |s| && AllIdChars(r)
    ensures forall i :: 0 <= i < |s| ==> r[i] == if IsLowerAlnum(s[i]) then s[i] else '-'
  {
    if s == [] then [] else [if IsLowerAlnum(s[0]) then s[0] else '-'] + DashNonAlnum(s[1..])
  }

  /** `replace(/-+/g, '-')`: every maximal run of '-' becomes a single '-'. */
  function CollapseDashes(s: string): (r: string)
    ensures NoDoubleDash(r)
    ensures |r| <= |s|
    ensures |s| > 0 ==> |r| > 0 && r[0] == s[0] && r[|r| - 1] == s[|s| - 1]
    ensures AllIdChars(s) ==> AllIdChars(r)
  {
    if |s| <= 1 then s
    else if s[0] == '-' && s[1] == '-' then CollapseDashes(s[1..])
    else [s[0]] + CollapseDashes(s[1..])
  }

  /**
   * Trimming removes a single '-' at either edge and nothing else, and it always
   * removes a '-' that is there.
   */
  lemma TrimRemovesOnlyEdgeDashes(s: string)
    ensures exists a, b :: s == a + TrimDashes(s) + b && (a == [] || a == "-") && (b == [] || b == "-")
    ensures |s| > 0 && (s[0] == '-' || s[|s| - 1] == '-') ==> |TrimDashes(s)| < |s|
  {
    var lo := if |s| > 0 && s[0] == '-' then 1 else 0;
    var hi := if |s| > lo && s[|s| - 1] == '-' then |s| - 1 else |s|;
    assert s == s[..lo] + TrimDashes(s) + s[hi..];
  }

  /**
   * A run of two dashes collapses as one dash does; with `CollapseFixesSingleDashes`
   * this pins the result down: each maximal run of '-' leaves exactly one '-'.
   */
  lemma {:induction false} CollapseShortensRun(a: string, b: string)
    ensures CollapseDashes(a + "--" + b) == CollapseDashes(a + "-" + b)
    decreases |a|
  {
    var s1, s2 := a + "--" + b, a + "-" + b;
    if a == [] {
      assert s1[1..] == s2;
    } else {
      assert s1[0] == s2[0] && s1[1] == s2[1];
      assert s1[1..] == a[1..] + "--" + b && s2[1..] == a[1..] + "-" + b;
      CollapseShortensRun(a[1..], b);
    }
  }

  /** `replace(/^-|-$/g, '')`: drop one leading and one trailing '-' (the same '-' only once). */
  function TrimDashes(s: string): (r: string)
    ensures |r| <= |s|
    ensures AllIdChars(s) ==> AllIdChars(r)
    ensures NoDoubleDash(s) ==> NoDoubleDash(r) && NoEdgeDash(r)
  {
    var lo := if |s| > 0 && s[0] == '-' then 1 else 0;
    var hi := if |s| > lo && s[|s| - 1] == '-' then |s| - 1 else |s|;
    assert NoDoubleDash(s) ==> NoDoubleDash(s[lo..hi]);
    s[lo..hi]
  }

  /** The sanitisation chain shared by the three id formats. */
  function Sanitize(name: string): (r: string)
    ensures IsSanitized(r)
  {
    TrimDashes(CollapseDashes(DashNonAlnum(ToLower(name))))
  }

  /** The letters and digits of a string, in order. */
  function Alnums(s: string): (r: string)
    ensures forall i :: 0 <= i < |r| ==> IsLowerAlnum(r[i])
    ensures |r| <= |s|
  {
    if s == [] then [] else (if IsLowerAlnum(s[0]) then [s[0]] else []) + Alnums(s[1..])
  }

  lemma {:induction false} AlnumsConcat(a: string, b: string)
    ensures Alnums(a + b) == Alnums(a) + Alnums(b)
  {
    if a != [] {
      assert (a + b)[0] == a[0];
      assert (a + b)[1..] == a[1..] + b;
      AlnumsConcat(a[1..], b);
      var h := if IsLowerAlnum(a[0]) then [a[0]] else [];
      calc {
        Alnums(a + b);
        h + Alnums(a[1..] + b);
        h + (Alnums(a[1..]) + Alnums(b));
        (h + Alnums(a[1..])) + Alnums(b);
        Alnums(a) + Alnums(b);
      }
    } else {
      assert a + b == b;
    }
  }

  lemma {:induction false} DashKeepsAlnums(s: string)
    ensures Alnums(DashNonAlnum(s)) == Alnums(s)
  {
    if s != [] {
      DashKeepsAlnums(s[1..]);
    }
  }

  lemma {:induction false} CollapseKeepsAlnums(s: string)
    ensures Alnums(CollapseDashes(s)) == Alnums(s)
  {
    if |s| > 1 {
      CollapseKeepsAlnums(s[1..]);
      assert s == [s[0]] + s[1..];
      AlnumsConcat([s[0]], s[1..]);
      if !(s[0] == '-' && s[1] == '-') {
        AlnumsConcat([s[0]], CollapseDashes(s[1..]));
      }
    }
  }

  lemma TrimKeepsAlnums(s: string)
    ensures Alnums(TrimDashes(s)) == Alnums(s)
  {
    var lo := if |s| > 0 && s[0] == '-' then 1 else 0;
    var hi := if |s| > lo && s[|s| - 1] == '-' then |s| - 1 else |s|;
    assert s == s[..lo] + s[lo..hi] + s[hi..];
    AlnumsConcat(s[..lo] + s[lo..hi], s[hi..]);
    AlnumsConcat(s[..lo], s[lo..hi]);
    assert Alnums(s[..lo]) == [] by { if lo == 1 { assert s[..lo] == ['-']; } }
    assert Alnums(s[hi..]) == [] by { if hi < |s| { assert s[hi..] == ['-']; } }
  }

  /** The letters and digits of a sanitised name are those of the lower-cased name, in order. */
  lemma SanitizeKeepsAlnums(name: string)
    ensures Alnums(Sanitize(name)) == Alnums(ToLower(name))
  {
    var a := ToLower(name);
    DashKeepsAlnums(a);
    CollapseKeepsAlnums(DashNonAlnum(a));
    TrimKeepsAlnums(CollapseDashes(DashNonAlnum(a)));
  }

  lemma {:induction false} LowerFixesIdChars(s: string)
    requires AllIdChars(s)
    ensures ToLower(s) == s
  {
    if s != [] {
      LowerFixesIdChars(s[1..]);
    }
  }

  lemma {:induction false} DashFixesIdChars(s: string)
    requires AllIdChars(s)
    ensures DashNonAlnum(s) == s
  {
    if s != [] {
      DashFixesIdChars(s[1..]);
    }
  }

  lemma {:induction false} CollapseFixesSingleDashes(s: string)
    requires NoDoubleDash(s)
    ensures CollapseDashes(s) == s
  {
    if |s| > 1 {
      CollapseFixesSingleDashes(s[1..]);
    }
  }

  /** Sanitising a sanitised name changes nothing. */
  lemma SanitizeFixesSanitized(s: string)
    requires IsSanitized(s)
    ensures Sanitize(s) == s
  {
    LowerFixesIdChars(s);
    DashFixesIdChars(s);
    CollapseFixesSingleDashes(s);
  }

  /** Sanitisation is idempotent. */
  lemma SanitizeIdempotent(name: string)
    ensures Sanitize(Sanitize(name)) == Sanitize(name)
  {
    SanitizeFixesSanitized(Sanitize(name));
  }

  /** A sanitised name is empty exactly when the name has no ASCII letter or digit. */
  lemma SanitizeEmptyIff(name: string)
    ensures Sanitize(name) == [] <==> Alnums(ToLower(name)) == []
  {
    SanitizeKeepsAlnums(name);
    SanitizedStartsWithAlnum(Sanitize(name));
  }

  /** A non-empty sanitised string starts with a letter or digit, so it has one. */
  lemma SanitizedStartsWithAlnum(s: string)
    requires IsSanitized(s)
    ensures s == [] <==> Alnums(s) == []
  {
    if s != [] {
      assert IsIdChar(s[0]) && s[0] != '-';
    }
  }

  /** A suffix `generateRandomString(4)` can return: four characters of the alphabet a-z0-9. */
  predicate IsRandomSuffix(suffix: string) {
    |suffix| == 4 && forall i :: 0 <= i < 4 ==> IsLowerAlnum(suffix[i])
  }

  /** `generatePartId`: the sanitised name, a '-' and a four-character random suffix. */
  function GeneratePartId(name: string, suffix: string): (id: string)
    requires IsRandomSuffix(suffix)
    ensures AllIdChars(id)
    ensures |id| == |Sanitize(name)| + 5
    ensures id[..|id| - 5] == Sanitize(name) && id[|id| - 5] == '-' && id[|id| - 4..] == suffix
  {
    var s := Sanitize(name);
    var id := s + "-" + suffix;
    assert forall i :: 0 <= i < |id| ==> IsIdChar(id[i]) by {
      forall i | 0 <= i < |id| ensures IsIdChar(id[i]) {
        if i < |s| { assert id[i] == s[i]; }
        else if i > |s| { assert id[i] == suffix[i - |s| - 1]; }
      }
    }
    id
  }

  /** Two generated ids are equal exactly when the sanitised names and the suffixes are. */
  lemma PartIdInjective(a: string, sa: string, b: string, sb: string)
    requires IsRandomSuffix(sa) && IsRandomSuffix(sb)
    ensures GeneratePartId(a, sa) == GeneratePartId(b, sb) <==> Sanitize(a) == Sanitize(b) && sa == sb
  {
    var ia, ib := GeneratePartId(a, sa), GeneratePartId(b, sb);
    if ia == ib {
      assert ia[..|ia| - 5] == ib[..|ib| - 5];
      assert ia[|ia| - 4..] == ib[|ib| - 4..];
    }
  }

  /** A generated id starts with '-' exactly when the name has no ASCII letter or digit. */
  lemma PartIdLeadingDash(name: string, suffix: string)
    requires IsRandomSuffix(suffix)
    ensures GeneratePartId(name, suffix)[0] == '-' <==> Alnums(ToLower(name)) == []
  {
    SanitizeEmptyIff(name);
    var s := Sanitize(name);
    if s != [] {
      assert GeneratePartId(name, suffix)[0] == s[0];
    }
  }

  /** An ObjectId string: 24 lower-case hexadecimal digits. */
  predicate IsObjectIdHex(oid: string) {
    |oid| == 24 && forall i :: 0 <= i < 24 ==> ('0' <= oid[i] <= '9' || 'a' <= oid[i] <= 'f')
  }

  /** `substring(0, 10)` of the sanitised name. */
  function ShortPrefix(name: string): (p: string)
    ensures |p| == if |Sanitize(name)| < 10 then |Sanitize(name)| else 10
    ensures p <= Sanitize(name)
  {
    var s := Sanitize(name);
    if |s| < 10 then s else s[..10]
  }

  /** `generatePartIdWithObjectId`: at most ten characters of the sanitised name, '-', the ObjectId. */
  function GeneratePartIdWithObjectId(name: string, oid: string): (id: string)
    requires IsObjectIdHex(oid)
    ensures |id| == |ShortPrefix(name)| + 25
    ensures ShortPrefix(name) <= id && id[|id| - 25] == '-' && id[|id| - 24..] == oid
  {
    ShortPrefix(name) + "-" + oid
  }

  /**
   * Cutting at ten characters can leave a trailing '-': a twelve-character name of
   * letters with a space in tenth place (such as "abcdefghi jk") sanitises to twelve characters with
   * '-' in tenth place, so its ten-character prefix ends in '-' and the id holds "--".
   */
  lemma ShortPrefixMayEndInDash(n: string, oid: string)
    requires |n| == 12 && n[9] == ' ' && IsObjectIdHex(oid)
    requires forall i :: 0 <= i < 12 && i != 9 ==> 'a' <= n[i] <= 'z'
    ensures |Sanitize(n)| == 12 && Sanitize(n)[9] == '-'
    ensures |ShortPrefix(n)| == 10 && ShortPrefix(n)[9] == '-'
    ensures GeneratePartIdWithObjectId(n, oid)[9] == '-' && GeneratePartIdWithObjectId(n, oid)[10] == '-'
  {
    var d := DashNonAlnum(ToLower(n));
    assert forall i :: 0 <= i < 12 ==> d[i] == if i == 9 then '-' else n[i];
    SanitizeWithoutDashRuns(n);
  }

  /** When replacing leaves no "--" and no edge '-', collapsing and trimming change nothing. */
  lemma SanitizeWithoutDashRuns(n: string)
    requires NoDoubleDash(DashNonAlnum(ToLower(n))) && NoEdgeDash(DashNonAlnum(ToLower(n)))
    ensures Sanitize(n) == DashNonAlnum(ToLower(n))
  {
    var d := DashNonAlnum(ToLower(n));
    CollapseFixesSingleDashes(d);
    TrimKeepsClean(d);
  }

  /** Trimming a string with no edge '-' changes nothing. */
  lemma TrimKeepsClean(s: string)
    requires NoEdgeDash(s)
    ensures TrimDashes(s) == s
  {
    assert s[0..|s|] == s;
  }

  // ---------------------------------------------------------------------
  // Sequential ids

  function DigitChar(d: int): char
    requires 0 <= d < 10
  {
    ('0' as int + d) as char
  }

  predicate IsDigit(c: char) {
    '0' <= c <= '9'
  }

  /** The decimal digits of a natural number, most significant first, without leading zeros. */
  function Digits(n: nat): (r: string)
    ensures |r| > 0 && forall i :: 0 <= i < |r| ==> IsDigit(r[i])
    ensures n > 0 ==> r[0] != '0'
  {
    if n < 10 then [DigitChar(n)] else Digits(n / 10) + [DigitChar(n % 10)]
  }

  /** `Number.prototype.toString` on an integer: a '-' sign for negatives, then the digits. */
  function DecimalString(n: int): string {
    if n < 0 then "-" + Digits(-n) else Digits(n)
  }

  /** `k` zero digits. */
  function Zeros(k: nat): (r: string)
    ensures |r| == k && forall i :: 0 <= i < k ==> r[i] == '0'
  {
    seq(k, _ => '0')
  }

  /** `padStart(width, '0')`: zeros in front up to the width; a longer string is kept. */
  function PadStart(s: string, width: nat): (r: string)
    ensures |r| == if |s| < width then width else |s|
    ensures r[|r| - |s|..] == s
    ensures forall i :: 0 <= i < |r| - |s| ==> r[i] == '0'
  {
    if |s| >= width then s else Zeros(width - |s|) + s
  }

  /** The value of a string of decimal digits. */
  function ParseDecimal(s: string): nat
    requires forall i :: 0 <= i < |s| ==> IsDigit(s[i])
  {
    if s == [] then 0
    else
      assert IsDigit(s[|s| - 1]);
      ParseDecimal(s[..|s| - 1]) * 10 + (s[|s| - 1] as int - '0' as int)
  }

  lemma {:induction false} ParseDigits(n: nat)
    ensures ParseDecimal(Digits(n)) == n
  {
    if n >= 10 {
      var d := Digits(n);
      assert d[..|d| - 1] == Digits(n / 10);
      ParseDigits(n / 10);
    }
  }

  lemma {:induction false} ParseIgnoresLeadingZero(s: string)
    requires forall i :: 0 <= i < |s| ==> IsDigit(s[i])
    ensures ParseDecimal(['0'] + s) == ParseDecimal(s)
  {
    if s != [] {
      var t := ['0'] + s;
      assert t[..|t| - 1] == ['0'] + s[..|s| - 1];
      ParseIgnoresLeadingZero(s[..|s| - 1]);
    }
  }

  lemma {:induction false} ParseZerosPrefix(k: nat, s: string)
    requires forall i :: 0 <= i < |s| ==> IsDigit(s[i])
    ensures forall i :: 0 <= i < |Zeros(k) + s| ==> IsDigit((Zeros(k) + s)[i])
    ensures ParseDecimal(Zeros(k) + s) == ParseDecimal(s)
  {
    if k > 0 {
      ParseZerosPrefix(k - 1, s);
      assert Zeros(k) + s == ['0'] + (Zeros(k - 1) + s);
      ParseIgnoresLeadingZero(Zeros(k - 1) + s);
    } else {
      assert Zeros(k) + s == s;
    }
  }

  lemma ParsePadded(s: string, width: nat)
    requires forall i :: 0 <= i < |s| ==> IsDigit(s[i])
    ensures forall i :: 0 <= i < |PadStart(s, width)| ==> IsDigit(PadStart(s, width)[i])
    ensures ParseDecimal(PadStart(s, width)) == ParseDecimal(s)
  {
    if |s| < width {
      ParseZerosPrefix(width - |s|, s);
    }
  }

  lemma DigitsBelowThousand(n: nat)
    requires n < 1000
    ensures |Digits(n)| <= 3
  {
    if n >= 10 {
      assert |Digits(n / 10)| <= 2 by {
        if n / 10 >= 10 {
          assert |Digits(n / 10 / 10)| == 1;
        }
      }
    }
  }

  /** The counter part of a sequential id: the decimal form padded with '0' to at least three. */
  function CounterField(counter: int): string {
    PadStart(DecimalString(counter), 3)
  }

  /** `generateSequentialId`: the sanitised name, '-', and the padded counter. */
  function GenerateSequentialId(name: string, counter: int): (id: string)
    ensures |id| >= |Sanitize(name)| + 4
    ensures id[..|Sanitize(name)| + 1] == Sanitize(name) + "-"
    ensures id[|Sanitize(name)| + 1..] == CounterField(counter)
  {
    Sanitize(name) + "-" + CounterField(counter)
  }

  /**
   * For a non-negative counter the counter field is all digits, at least three long,
   * exactly three below 1000, and reads back as the counter.
   */
  lemma CounterFieldRoundTrip(counter: int)
    requires counter >= 0
    ensures forall i :: 0 <= i < |CounterField(counter)| ==> IsDigit(CounterField(counter)[i])
    ensures |CounterField(counter)| >= 3
    ensures counter < 1000 ==> |CounterField(counter)| == 3
    ensures ParseDecimal(CounterField(counter)) == counter
  {
    var d := Digits(counter);
    ParsePadded(d, 3);
    ParseDigits(counter);
    if counter < 1000 {
      DigitsBelowThousand(counter);
    }
  }
}
