/** Textual keys: decimal numbers, ':'-separated segments, prefixes and lexicographic order. */
module Text {
  import opened Prelude
  import opened Bytes

  // ===== Decimal numbers =====

  function Digit(d: nat): (c: char)
    requires d < 10
    ensures '0' <= c <= '9' && (c as int) - ('0' as int) == d
  {
    ('0' as int + d) as char
  }

  predicate IsDigit(c: char) { '0' <= c <= '9' }

  function DigitValue(c: char): (d: nat)
    requires IsDigit(c)
    ensures d < 10
  {
    c as int - '0' as int
  }

  function DecimalNat(n: nat): (s: string)
    ensures |s| > 0 && forall c :: c in s ==> IsDigit(c)
  {
    if n < 10 then [Digit(n)] else DecimalNat(n / 10) + [Digit(n % 10)]
  }

  /** `format!("{}", i)`. */
  function Decimal(i: int): (s: string)
    ensures |s| > 0 && ':' !in s
  {
    if i < 0 then "-" + DecimalNat(-i) else DecimalNat(i)
  }

  /** The value of a digit string, if it is one. */
  function ParseNat(s: string): Option<nat> {
    if s == [] || !IsDigit(s[|s| - 1]) then None
    else if |s| == 1 then Some(DigitValue(s[0]))
    else
      var high := ParseNat(s[..|s| - 1]);
      if high.None? then None else Some(10 * high.value + DigitValue(s[|s| - 1]))
  }

  /** `str::parse::<i64>`: an optional sign, at least one digit, in range. */
  function ParseI64(s: string): (r: Option<int>)
    ensures r.Some? ==> IsI64(r.value)
  {
    if s == [] then None
    else
      var digits := ParseNat(if s[0] == '-' || s[0] == '+' then s[1..] else s);
      if digits.None? then None
      else
        var i: int := if s[0] == '-' then 0 - digits.value else digits.value;
        if IsI64(i) then Some(i) else None
  }

  ghost predicate IsDigits(s: string) { s != [] && forall c :: c in s ==> '0' <= c <= '9' }

  /** The number that a string of digits spells. */
  ghost function ValueOf(s: string): int {
    if s == [] then 0 else 10 * ValueOf(s[..|s| - 1]) + (s[|s| - 1] as int - '0' as int)
  }

  /** Digits after an optional sign. */
  ghost predicate Spells(s: string, i: int) {
    || (IsDigits(s) && i == ValueOf(s))
    || (s != [] && IsDigits(s[1..]) && s[0] == '+' && i == ValueOf(s[1..]))
    || (s != [] && IsDigits(s[1..]) && s[0] == '-' && i == -ValueOf(s[1..]))
  }

  lemma {:induction false} ParseNatExactly(s: string)
    ensures ParseNat(s).Some? <==> IsDigits(s)
    ensures IsDigits(s) ==> ParseNat(s).value == ValueOf(s)
  {
    if |s| > 1 {
      var prior, last := s[..|s| - 1], s[|s| - 1];
      ParseNatExactly(prior);
      assert s == prior + [last] && last in s;
      assert forall c :: c in s <==> c in prior || c == last;
    } else if |s| == 1 {
      assert s[..0] == [] && s[0] in s;
    }
  }

  /** Parsing succeeds exactly on what spells a number in range, with that number. */
  lemma ParseExactly(s: string, i: int)
    ensures ParseI64(s) == Some(i) <==> IsI64(i) && Spells(s, i)
  {
    hide ParseNat, ValueOf;
    ParseNatExactly(s);
    if s != [] {
      ParseNatExactly(s[1..]);
      assert s[0] in s;
    }
  }

  lemma {:induction false} ParseDecimalNat(n: nat)
    ensures ParseNat(DecimalNat(n)) == Some(n)
  {
    if n >= 10 {
      ParseDecimalNat(n / 10);
      assert DecimalNat(n)[..|DecimalNat(n)| - 1] == DecimalNat(n / 10);
    }
  }

  lemma ParseDecimal(i: int)
    requires IsI64(i)
    ensures ParseI64(Decimal(i)) == Some(i)
  {
    ParseDecimalNat(if i < 0 then -i else i);
    if i < 0 {
      assert Decimal(i)[1..] == DecimalNat(-i);
    } else {
      assert Decimal(i)[0] in Decimal(i);
    }
  }

  /** No sign but a minus before a negative number, and no leading zeros. */
  ghost predicate IsPlain(s: string) { IsDigits(s) && (|s| > 1 ==> s[0] != '0') }

  lemma {:induction false} DecimalNatIsPlain(n: nat)
    ensures IsPlain(DecimalNat(n)) && ValueOf(DecimalNat(n)) == n
    ensures n > 0 ==> DecimalNat(n)[0] != '0'
  {
    ParseDecimalNat(n);
    ParseNatExactly(DecimalNat(n));
    hide ParseNat, ValueOf;
    if n >= 10 {
      DecimalNatIsPlain(n / 10);
      assert DecimalNat(n)[0] == DecimalNat(n / 10)[0];
    }
  }

  lemma DecimalExactly(i: int)
    ensures i >= 0 ==> IsPlain(Decimal(i)) && ValueOf(Decimal(i)) == i
    ensures i < 0 ==> Decimal(i)[0] == '-' && IsPlain(Decimal(i)[1..]) && ValueOf(Decimal(i)[1..]) == -i
  {
    hide DecimalNat, ValueOf;
    DecimalNatIsPlain(if i < 0 then -i else i);
    if i < 0 { assert Decimal(i)[1..] == DecimalNat(-i); }
  }

  lemma DecimalInjective(i: int, j: int)
    requires IsI64(i) && IsI64(j) && Decimal(i) == Decimal(j)
    ensures i == j
  {
    ParseDecimal(i);
    ParseDecimal(j);
  }

  // ===== Segments =====

  predicate IsSegment(s: string) { ':' !in s }

  function Join(parts: seq<string>): string
    requires parts != []
  {
    if |parts| == 1 then parts[0] else parts[0] + ":" + Join(parts[1..])
  }

  /** `str::split(':')`. */
  function Split(s: string): (parts: seq<string>)
    ensures parts != []
  {
    if s == "" then [""]
    else if s[0] == ':' then [""] + Split(s[1..])
    else
      var rest := Split(s[1..]);
      [[s[0]] + rest[0]] + rest[1..]
  }

  lemma {:induction false} SplitSegment(s: string)
    requires IsSegment(s)
    ensures Split(s) == [s]
  {
    if s != "" {
      SplitSegment(s[1..]);
      assert [s[0]] + s[1..] == s;
    }
  }

  lemma {:induction false} SplitHead(s: string, rest: string)
    requires IsSegment(s)
    ensures Split(s + ":" + rest) == [s] + Split(rest)
  {
    var whole := s + ":" + rest;
    if s == "" {
      assert whole[1..] == rest;
    } else {
      assert whole[1..] == s[1..] + ":" + rest;
      SplitHead(s[1..], rest);
      assert [s[0]] + s[1..] == s;
    }
  }

  /** Splitting undoes joining when no segment contains the separator. */
  lemma {:induction false} SplitJoin(parts: seq<string>)
    requires parts != [] && forall i :: 0 <= i < |parts| ==> IsSegment(parts[i])
    ensures Split(Join(parts)) == parts
  {
    if |parts| == 1 {
      SplitSegment(parts[0]);
    } else {
      SplitHead(parts[0], Join(parts[1..]));
      SplitJoin(parts[1..]);
      assert [parts[0]] + parts[1..] == parts;
    }
  }

  /** Joining undoes splitting, and no piece contains the separator. */
  lemma {:induction false} JoinSplit(s: string)
    ensures Join(Split(s)) == s && forall i :: 0 <= i < |Split(s)| ==> IsSegment(Split(s)[i])
  {
    if s != "" {
      var rest := Split(s[1..]);
      JoinSplit(s[1..]);
      assert s == [s[0]] + s[1..];
      hide Join;
      if s[0] == ':' {
        JoinsBefore("", rest);
      } else {
        JoinsOnto([s[0]], rest);
      }
    } else {
      assert Join([""]) == "";
    }
  }

  lemma JoinsBefore(first: string, rest: seq<string>)
    requires rest != []
    ensures Join([first] + rest) == first + ":" + Join(rest)
  {
    assert ([first] + rest)[1..] == rest;
  }

  lemma JoinsOnto(head: string, rest: seq<string>)
    requires rest != []
    ensures Join([head + rest[0]] + rest[1..]) == head + Join(rest)
  {
    if |rest| > 1 { assert ([head + rest[0]] + rest[1..])[1..] == rest[1..]; }
  }

  lemma {:induction false} SplitPieces(a: string, b: string)
    ensures |Split(a + ":" + b)| == |Split(a)| + |Split(b)|
  {
    var whole := a + ":" + b;
    if a == "" {
      assert whole[1..] == b;
    } else {
      assert whole[1..] == a[1..] + ":" + b;
      SplitPieces(a[1..], b);
    }
  }

  lemma {:induction false} SplitBreaks(s: string)
    requires !IsSegment(s)
    ensures |Split(s)| > 1
  {
    if s[0] != ':' { SplitBreaks(s[1..]); }
  }

  /** The text after the last separator is determined, and so is the text before it. */
  lemma LastSegment(a: string, x: string, b: string, y: string)
    requires IsSegment(x) && IsSegment(y) && a + ":" + x == b + ":" + y
    ensures a == b && x == y
  {
    var whole := a + ":" + x;
    assert whole[|a|] == ':' && whole[|b|] == ':';
    forall i | |a| < i < |whole| ensures whole[i] != ':' { assert whole[i] == x[i - |a| - 1]; }
    forall i | |b| < i < |whole| ensures whole[i] != ':' { assert whole[i] == y[i - |b| - 1]; }
    assert a == whole[..|a|] && b == whole[..|b|] && x == whole[|a| + 1..] && y == whole[|b| + 1..];
  }

  // ===== Prefixes =====

  lemma PrefixCancels(p: string, a: string, b: string)
    requires p + a <= p + b
    ensures a <= b
  {
    assert (p + a)[|p|..] == a && (p + b)[|p|..] == b;
  }

  lemma PrefixExtends(p: string, a: string, b: string)
    requires a <= b
    ensures p + a <= p + b
  {
  }

  lemma ConcatCancels(p: string, a: string, b: string)
    requires p + a == p + b
    ensures a == b
  {
    assert (p + a)[|p|..] == a && (p + b)[|p|..] == b;
  }

  /** Two segments followed by a separator can only be prefixes of one another when equal. */
  lemma {:induction false} SegmentPrefix(a: string, b: string, rest: string)
    requires IsSegment(a) && IsSegment(b)
    requires a + ":" <= b + ":" + rest
    ensures a == b
  {
    var left, right := a + ":", b + ":" + rest;
    assert left[0] == right[0];
    if a != "" && b != "" {
      assert left[1..] == a[1..] + ":" && right[1..] == b[1..] + ":" + rest;
      SegmentPrefix(a[1..], b[1..], rest);
      assert a == [a[0]] + a[1..] && b == [b[0]] + b[1..];
    }
  }

  // ===== Lexicographic order =====

  predicate Less(a: string, b: string) {
    if b == [] then false
    else if a == [] then true
    else a[0] < b[0] || (a[0] == b[0] && Less(a[1..], b[1..]))
  }

  lemma {:induction false} LessTransitive(a: string, b: string, c: string)
    requires Less(a, b) && Less(b, c)
    ensures Less(a, c)
  {
    if a != [] && a[0] == b[0] == c[0] { LessTransitive(a[1..], b[1..], c[1..]); }
  }

  lemma {:induction false} LessIrreflexive(a: string)
    ensures !Less(a, a)
  {
    if a != [] { LessIrreflexive(a[1..]); }
  }

  lemma {:induction false} LessTotal(a: string, b: string)
    ensures a == b || Less(a, b) || Less(b, a)
  {
    if a != [] && b != [] && a[0] == b[0] {
      LessTotal(a[1..], b[1..]);
      if a[1..] == b[1..] { assert a == [a[0]] + a[1..] && b == [b[0]] + b[1..]; }
    }
  }

  /** Between two keys that share a prefix, every key shares it. */
  lemma {:induction false} PrefixIsConvex(p: string, a: string, b: string, c: string)
    requires p <= a && p <= c && Less(a, b) && Less(b, c)
    ensures p <= b
  {
    if p == [] {
    } else {
      assert a[0] == p[0] && c[0] == p[0];
      assert b[0] == p[0];
      PrefixIsConvex(p[1..], a[1..], b[1..], c[1..]);
      assert p == [p[0]] + p[1..] && b == [b[0]] + b[1..];
    }
  }

  ghost predicate StrictlySorted(keys: seq<string>) {
    forall i, j :: 0 <= i < j < |keys| ==> Less(keys[i], keys[j])
  }
}
