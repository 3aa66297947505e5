/** Decimal numerals and slash-joined keys, as the source formats its map keys. */
module Decimal {
  const DIGITS := "0123456789"

  function Numeral(n: nat): (s: string)
    ensures s != ""
    ensures forall i :: 0 <= i < |s| ==> '0' <= s[i] <= '9'
  {
    if n < 10 then [DIGITS[n]] else Numeral(n / 10) + [DIGITS[n % 10]]
  }

  /** The text of a signed integer. */
  function Text(n: int): string {
    if n < 0 then "-" + Numeral(-n) else Numeral(n)
  }

  /** The number that digits write, the most significant first. */
  function ValueOf(s: string): int {
    if s == "" then 0 else 10 * ValueOf(s[..|s| - 1]) + (s[|s| - 1] as int - '0' as int)
  }

  /** A numeral is the decimal writing of its number, without leading zeros. */
  lemma {:induction false} NumeralIsDecimal(n: nat)
    ensures ValueOf(Numeral(n)) == n && (Numeral(n)[0] == '0' <==> n == 0)
  {
    assert DIGITS[n % 10] as int == '0' as int + n % 10;
    if n < 10 {
      assert Numeral(n)[..0] == "";
    } else {
      NumeralIsDecimal(n / 10);
      assert Numeral(n)[..|Numeral(n)| - 1] == Numeral(n / 10);
    }
  }

  lemma {:induction false} NumeralIsInjective(m: nat, n: nat)
    requires Numeral(m) == Numeral(n)
    ensures m == n
  {
    var s := Numeral(m);
    assert m % 10 == n % 10 by {
      assert s[|s| - 1] == DIGITS[m % 10] && s[|s| - 1] == DIGITS[n % 10];
      DigitsDiffer(m % 10, n % 10);
    }
    if m >= 10 && n >= 10 {
      assert Numeral(m / 10) == s[..|s| - 1] == Numeral(n / 10);
      NumeralIsInjective(m / 10, n / 10);
    }
  }

  lemma DigitsDiffer(a: nat, b: nat)
    requires a < 10 && b < 10 && DIGITS[a] == DIGITS[b]
    ensures a == b
  {
    assert DIGITS[a] as int == '0' as int + a;
    assert DIGITS[b] as int == '0' as int + b;
  }

  lemma SignIsFirst(n: int)
    ensures Text(n) != "" && (Text(n)[0] == '-' <==> n < 0)
  {
  }

  lemma TextIsInjective(m: int, n: int)
    requires Text(m) == Text(n)
    ensures m == n
  {
    SignIsFirst(m);
    SignIsFirst(n);
    if m < 0 {
      assert Text(m)[1..] == Numeral(-m) && Text(n)[1..] == Numeral(-n);
      NumeralIsInjective(-m, -n);
    } else {
      NumeralIsInjective(m, n);
    }
  }

  function Count(s: string, c: char): nat {
    if s == "" then 0 else (if s[0] == c then 1 else 0) + Count(s[1..], c)
  }

  lemma {:induction false} CountOfConcat(a: string, b: string, c: char)
    ensures Count(a + b, c) == Count(a, c) + Count(b, c)
  {
    if a == "" {
      assert a + b == b;
    } else {
      assert (a + b)[1..] == a[1..] + b;
      CountOfConcat(a[1..], b, c);
    }
  }

  lemma {:induction false} CountIsZero(s: string, c: char)
    ensures Count(s, c) == 0 <==> c !in s
  {
    if s != "" {
      CountIsZero(s[1..], c);
      assert s == [s[0]] + s[1..];
    }
  }

  /** Texts joined by a separator that occurs in neither head split in one way. */
  lemma SplitsOnce(a: string, x: string, b: string, y: string, c: char)
    requires c !in a && c !in b && a + [c] + x == b + [c] + y
    ensures a == b && x == y
  {
    var left, right := a + [c] + x, b + [c] + y;
    assert left[|a|] == c && forall i :: 0 <= i < |a| ==> left[i] == a[i];
    assert right[|b|] == c && forall i :: 0 <= i < |b| ==> right[i] == b[i];
    assert |a| == |b|;
    assert left[..|a|] == a && right[..|b|] == b;
    assert left[|a| + 1..] == x && right[|b| + 1..] == y;
  }

  function Joined(boot: string, source: string, sequence: int): string {
    boot + "/" + (source + "/" + Text(sequence))
  }

  lemma TextHasNoSlash(n: int)
    ensures '/' !in Text(n)
  {
  }

  /** A key made from slash-free parts is made from no other parts at all, not even from parts
      that themselves contain slashes. */
  lemma JoinedIsInjective(boot: string, source: string, sequence: int, boot': string, source': string, sequence': int)
    requires '/' !in boot && '/' !in source
    requires Joined(boot, source, sequence) == Joined(boot', source', sequence')
    ensures boot == boot' && source == source' && sequence == sequence'
  {
    CountsOfJoined(boot, source, sequence);
    CountsOfJoined(boot', source', sequence');
    CountIsZero(boot, '/');
    CountIsZero(source, '/');
    CountIsZero(boot', '/');
    CountIsZero(source', '/');
    SplitsOnce(boot, source + "/" + Text(sequence), boot', source' + "/" + Text(sequence'), '/');
    SplitsOnce(source, Text(sequence), source', Text(sequence'), '/');
    TextIsInjective(sequence, sequence');
  }

  lemma CountsOfJoined(boot: string, source: string, sequence: int)
    ensures Count(Joined(boot, source, sequence), '/') == Count(boot, '/') + Count(source, '/') + 2
  {
    var tail := source + "/" + Text(sequence);
    assert boot + "/" + tail == boot + ("/" + tail) && source + "/" + Text(sequence) == source + ("/" + Text(sequence));
    CountOfConcat(boot, "/" + tail, '/');
    CountOfConcat("/", tail, '/');
    CountOfConcat(source, "/" + Text(sequence), '/');
    CountOfConcat("/", Text(sequence), '/');
    TextHasNoSlash(sequence);
    CountIsZero(Text(sequence), '/');
  }
}
