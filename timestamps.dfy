/** `tryParseInstant` / `parseInstant`: an ISO 8601 instant, or else the epoch
    seconds in the `substringAfter(':').substringBeforeLast(":")` slice, as in a
    Discord timestamp token such as `<t:1700000000:F>` or a bare number. */
module Timestamps {
  import opened Wrappers
  import opened Errors

  /** The range of a Kotlin `Long`. */
  const LongMin: int := -0x8000_0000_0000_0000
  const LongMax: int := 0x7FFF_FFFF_FFFF_FFFF

  /** The range of `Instant` on the JVM (`java.time.Instant.MIN`/`MAX`), in epoch seconds. */
  const InstantMin: int := -31557014167219200
  const InstantMax: int := 31556889864403199

  /** The position of the first `c` in `s`. */
  function FirstIndex(s: string, c: char): (i: nat)
    requires c in s
    ensures i < |s| && s[i] == c && c !in s[..i]
  {
    if s[0] == c then 0
    else
      assert c in s[1..] by { var j :| 0 <= j < |s| && s[j] == c; assert s[1..][j - 1] == c; }
      var j := FirstIndex(s[1..], c);
      assert s[..j + 1] == [s[0]] + s[1..][..j];
      j + 1
  }

  /** The position of the last `c` in `s`. */
  function LastIndex(s: string, c: char): (i: nat)
    requires c in s
    ensures i < |s| && s[i] == c && c !in s[i + 1..]
  {
    var n := |s| - 1;
    if s[n] == c then n
    else
      assert c in s[..n] by { var j :| 0 <= j < |s| && s[j] == c; assert s[..n][j] == c; }
      var j := LastIndex(s[..n], c);
      assert s[j + 1..] == s[..n][j + 1..] + [s[n]];
      j
  }

  /** Kotlin's `substringAfter(c)`: what follows the first `c`, or all of `s`
      when `s` has no `c`. */
  function SubstringAfter(s: string, c: char): (r: string)
    ensures c !in s ==> r == s
    ensures c in s ==> |r| < |s| && s == s[..|s| - |r| - 1] + [c] + r && c !in s[..|s| - |r| - 1]
  {
    if c in s then
      var i := FirstIndex(s, c);
      assert s == s[..i] + [c] + s[i + 1..];
      s[i + 1..]
    else s
  }

  /** Kotlin's `substringBeforeLast(c)`: what precedes the last `c`, or all of
      `s` when `s` has no `c`. */
  function SubstringBeforeLast(s: string, c: char): (r: string)
    ensures c !in s ==> r == s
    ensures c in s ==> |r| < |s| && s == r + [c] + s[|r| + 1..] && c !in s[|r| + 1..]
  {
    if c in s then
      var i := LastIndex(s, c);
      assert s == s[..i] + [c] + s[i + 1..];
      s[..i]
    else s
  }

  predicate IsDigit(ch: char) {
    '0' <= ch <= '9'
  }

  predicate AllDigits(s: string) {
    forall i :: 0 <= i < |s| ==> IsDigit(s[i])
  }

  /** The value of a string of decimal digits, most significant first. */
  function DigitsValue(s: string): nat
    requires AllDigits(s)
  {
    if s == [] then 0
    else DigitsValue(s[..|s| - 1]) * 10 + (s[|s| - 1] as int - '0' as int)
  }

  /** What follows an optional leading `+` or `-`. */
  function Unsigned(s: string): string
    requires |s| > 0
  {
    if s[0] == '-' || s[0] == '+' then s[1..] else s
  }

  /** `String.toLong()` (`java.lang.Long.parseLong`): an optional `+` or `-`,
      then at least one decimal digit, with the value inside the `Long` range. */
  function ParseLong(s: string): (r: Option<int>)
    ensures r.Some? ==> LongMin <= r.value <= LongMax
    ensures r.Some? ==> |s| > 0 && |Unsigned(s)| > 0 && AllDigits(Unsigned(s))
    ensures |s| > 0 && |Unsigned(s)| > 0 && AllDigits(Unsigned(s)) &&
      LongMin <= (if s[0] == '-' then -(DigitsValue(Unsigned(s)) as int) else DigitsValue(Unsigned(s))) <= LongMax
      ==> r == Some(if s[0] == '-' then -(DigitsValue(Unsigned(s)) as int) else DigitsValue(Unsigned(s)))
    ensures r.Some? && s[0] != '-' ==> r.value >= 0
  {
    if |s| == 0 then None
    else
      var negative := s[0] == '-';
      var digits := Unsigned(s);
      if |digits| == 0 || !AllDigits(digits) then None
      else
        var magnitude: int := DigitsValue(digits);
        var v := if negative then -magnitude else magnitude;
        if LongMin <= v <= LongMax then Some(v) else None
  }

  /** The signed value of a numeral: the digits' value, negated after a `-`. */
  function Signed(s: string): int
    requires |s| > 0 && AllDigits(Unsigned(s))
  {
    if s[0] == '-' then -(DigitsValue(Unsigned(s)) as int) else DigitsValue(Unsigned(s))
  }

  /** `toLong()` succeeds exactly on a signed numeral whose value fits a `Long`,
      and yields that value; a numeral outside the range is rejected. */
  lemma ParseLongExact(s: string)
    ensures ParseLong(s).Some? <==>
      |s| > 0 && |Unsigned(s)| > 0 && AllDigits(Unsigned(s)) && LongMin <= Signed(s) <= LongMax
    ensures ParseLong(s).Some? ==> ParseLong(s).value == Signed(s)
  {
  }

  /** The decimal digits of `n`, most significant first. */
  function Decimal(n: nat): (s: string)
    ensures |s| > 0 && AllDigits(s)
  {
    var d := [('0' as int + n % 10) as char];
    if n < 10 then d else Decimal(n / 10) + d
  }

  /** `Long.toString()`: a `-` for negative values, then the decimal digits. */
  function Show(n: int): string {
    if n < 0 then "-" + Decimal(-n) else Decimal(n)
  }

  lemma {:induction false} DecimalValue(n: nat)
    ensures DigitsValue(Decimal(n)) == n
  {
    var d := [('0' as int + n % 10) as char];
    if n >= 10 {
      DecimalValue(n / 10);
      var s := Decimal(n / 10) + d;
      assert s[..|s| - 1] == Decimal(n / 10);
    }
  }

  /** `toLong` reads back every `Long` written in decimal. */
  lemma ParseShow(n: int)
    requires LongMin <= n <= LongMax
    ensures ParseLong(Show(n)) == Some(n)
  {
    if n < 0 {
      DecimalValue(-n);
      assert Show(n)[1..] == Decimal(-n);
    } else {
      DecimalValue(n);
    }
  }

  /** A number outside the `Long` range, written in decimal, is rejected
      (`NumberFormatException`), rather than read back wrapped or clamped. */
  lemma ShowOutOfRangeRejected(n: int)
    requires n < LongMin || n > LongMax
    ensures ParseLong(Show(n)) == None
  {
    if n < 0 {
      DecimalValue(-n);
      assert Unsigned(Show(n)) == Decimal(-n);
    } else {
      DecimalValue(n);
    }
    ParseLongExact(Show(n));
  }

  /** A written `Long` holds no `:`. */
  lemma ShowHasNoColon(n: int)
    ensures ':' !in Show(n)
  {
    var s := Show(n);
    var d := Decimal(if n < 0 then -n else n);
    forall i | 0 <= i < |s| ensures s[i] != ':' {
      if n < 0 && i > 0 { assert s[i] == d[i - 1]; }
    }
  }

  /** In `p + [c] + x` with no `c` in `p`, the first `c` follows `p`. */
  lemma {:induction false} FirstIndexAfter(p: string, c: char, x: string)
    requires c !in p
    ensures FirstIndex(p + [c] + x, c) == |p|
  {
    if p != [] {
      var s := p + [c] + x;
      assert s[1..] == p[1..] + [c] + x;
      assert c !in p[1..] by { forall i | 0 <= i < |p[1..]| ensures p[1..][i] != c { assert p[1..][i] == p[i + 1]; } }
      FirstIndexAfter(p[1..], c, x);
    }
  }

  /** In `x + [c] + p` with no `c` in `p`, the last `c` follows `x`. */
  lemma {:induction false} LastIndexBefore(x: string, c: char, p: string)
    requires c !in p
    ensures LastIndex(x + [c] + p, c) == |x|
  {
    if p != [] {
      var s := x + [c] + p;
      var q := p[..|p| - 1];
      assert s[..|s| - 1] == x + [c] + q;
      assert s[|s| - 1] == p[|p| - 1];
      assert c !in q by { forall i | 0 <= i < |q| ensures q[i] != c { assert q[i] == p[i]; } }
      LastIndexBefore(x, c, q);
    }
  }

  /** `Instant.fromEpochSeconds`: clamps to the range of `Instant`. */
  function FromEpochSeconds(n: int): (r: int)
    ensures InstantMin <= r <= InstantMax
    ensures InstantMin <= n <= InstantMax ==> r == n
    ensures n < InstantMin ==> r == InstantMin
    ensures n > InstantMax ==> r == InstantMax
  {
    if n < InstantMin then InstantMin else if n > InstantMax then InstantMax else n
  }

  /** The text the fallback parses: `value.substringAfter(':').substringBeforeLast(":")`. */
  function TokenSeconds(value: string): (r: string)
    ensures ':' !in value ==> r == value
    ensures ':' in value ==> |r| < |value|
  {
    SubstringBeforeLast(SubstringAfter(value, ':'), ':')
  }

  /** With a prefix and a suffix free of `:`, the slice is exactly what lies
      between the first and the last `:`, colons inside it included. */
  lemma TokenBetweenColons(p: string, x: string, y: string)
    requires ':' !in p && ':' !in y
    ensures TokenSeconds(p + [':'] + x + [':'] + y) == x
  {
    var after := x + [':'] + y;
    assert p + [':'] + x + [':'] + y == p + [':'] + after;
    FirstIndexAfter(p, ':', after);
    assert SubstringAfter(p + [':'] + after, ':') == after;
    LastIndexBefore(x, ':', y);
    assert after[..|x|] == x;
  }

  /** With a single `:`, the slice is everything after it. */
  lemma TokenAfterSingleColon(p: string, x: string)
    requires ':' !in p && ':' !in x
    ensures TokenSeconds(p + [':'] + x) == x
  {
    FirstIndexAfter(p, ':', x);
    assert SubstringAfter(p + [':'] + x, ':') == x;
  }

  /** `tryParseInstant`: the ISO 8601 parse (`iso`, the library's
      `Instant.parse`, left uninterpreted) when it succeeds; otherwise the
      epoch seconds of the Discord-token fallback; otherwise nothing. */
  function TryParseInstant(iso: string -> Option<int>, value: string): (r: Option<int>)
    ensures iso(value).Some? ==> r == iso(value)
    ensures iso(value).None? && r.Some? ==> InstantMin <= r.value <= InstantMax
    ensures iso(value).None? ==> (r.Some? <==> ParseLong(TokenSeconds(value)).Some?)
    ensures iso(value).None? && r.Some? ==>
      r.value == FromEpochSeconds(ParseLong(TokenSeconds(value)).value)
  {
    if iso(value).Some? then iso(value)
    else
      match ParseLong(TokenSeconds(value))
      case Some(seconds) => Some(FromEpochSeconds(seconds))
      case None => None
  }

  /** `parseInstant`: `tryParseInstant`, with a null turned into an error. */
  function ParseInstant(iso: string -> Option<int>, value: string): (r: Result<int, Error>)
    ensures r.Ok? <==> TryParseInstant(iso, value).Some?
    ensures r.Ok? ==> Some(r.value) == TryParseInstant(iso, value)
    ensures r.Err? ==> r.error == ParseFailed(value)
  {
    match TryParseInstant(iso, value)
    case Some(t) => Ok(t)
    case None => Err(ParseFailed(value))
  }

  /** A Discord timestamp token `<t:N:STYLE>` that is not ISO 8601 yields the
      instant `N` seconds after the epoch (clamped to the `Instant` range). */
  lemma DiscordTokenParses(iso: string -> Option<int>, n: int, style: string)
    requires LongMin <= n <= LongMax && ':' !in style
    requires iso("<t:" + Show(n) + ":" + style + ">").None?
    ensures TryParseInstant(iso, "<t:" + Show(n) + ":" + style + ">") == Some(FromEpochSeconds(n))
  {
    var rest := style + ">";
    assert "<t:" + Show(n) + ":" + style + ">" == "<t" + [':'] + Show(n) + [':'] + rest;
    assert ':' !in rest by { assert forall i :: 0 <= i < |style| ==> rest[i] == style[i]; }
    TokenBetweenColons("<t", Show(n), rest);
    ParseShow(n);
  }

  /** A Discord token without a style, `<t:N>`, that is not ISO 8601 is
      rejected: the slice keeps the closing `>`, which is not a digit. */
  lemma NoStyleTokenRejected(iso: string -> Option<int>, n: int)
    requires iso("<t:" + Show(n) + ">").None?
    ensures TryParseInstant(iso, "<t:" + Show(n) + ">") == None
  {
    var x := Show(n) + ">";
    assert "<t:" + Show(n) + ">" == "<t" + [':'] + x;
    ShowHasNoColon(n);
    assert ':' !in x by { assert forall i :: 0 <= i < |Show(n)| ==> x[i] == Show(n)[i]; }
    TokenAfterSingleColon("<t", x);
    var u := Unsigned(x);
    assert u[|u| - 1] == '>';
    assert !IsDigit(u[|u| - 1]);
  }

  /** A bare decimal number that is not ISO 8601 yields itself as epoch seconds
      (clamped to the `Instant` range). */
  lemma BareNumberParses(iso: string -> Option<int>, n: int)
    requires LongMin <= n <= LongMax && iso(Show(n)).None?
    ensures TryParseInstant(iso, Show(n)) == Some(FromEpochSeconds(n))
  {
    ShowHasNoColon(n);
    ParseShow(n);
  }
}
