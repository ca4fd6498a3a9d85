/** `client_id_get`: the MQTT client identifier, either the configured one or the board
    name followed by a dash and the random value as ten zero-padded decimal digits, written
    with `snprintf` into a static buffer sized so that it always fits. */
module ClientId {
  import opened CString
  import opened Kconfig
  import opened Zephyr

  /** RANDOM_LEN: the digits of the random suffix. */
  const RANDOM_LEN: nat := 10

  const ZERO: byte := 48   // '0'
  const DASH: byte := 45   // '-'

  /** CLIENT_ID_LEN: `sizeof(CONFIG_BOARD) + 1 + RANDOM_LEN`. */
  function ClientIdLen(cfg: Config): nat {
    |Literal(cfg.board)| + 1 + RANDOM_LEN
  }

  /** The size of the static buffer: `MAX(sizeof(CONFIG_MQTT_CLIENT_ID), CLIENT_ID_LEN)`. */
  function ClientIdBufSize(cfg: Config): nat {
    var a := |Literal(cfg.clientId)|;
    var b := ClientIdLen(cfg);
    if a > b then a else b
  }

  predicate IsDigit(b: byte) {
    ZERO <= b <= ZERO + 9
  }

  predicate AllDigits(s: seq<byte>) {
    forall i :: 0 <= i < |s| ==> IsDigit(s[i])
  }

  function Digit(d: nat): byte
    requires d < 10
  {
    (ZERO as int + d) as byte
  }

  function Pow10(n: nat): nat {
    if n == 0 then 1 else 10 * Pow10(n - 1)
  }

  /** `%u`: the decimal digits of `n` with no leading zeros (a single zero for 0). */
  function Decimal(n: nat): (s: seq<byte>)
    ensures |s| >= 1 && AllDigits(s)
  {
    if n < 10 then [Digit(n)] else Decimal(n / 10) + [Digit(n % 10)]
  }

  /** `%0<width>u`: the digits of `n`, padded on the left with zeros to at least `width`. */
  function ZeroPadded(n: nat, width: nat): seq<byte> {
    var d := Decimal(n);
    if |d| >= width then d else seq(width - |d|, _ => ZERO) + d
  }

  /** The number a string of decimal digits spells; the reference for reading the suffix back. */
  function Value(s: seq<byte>): nat
    requires AllDigits(s)
  {
    if s == [] then 0 else Value(s[..|s| - 1]) * 10 + (s[|s| - 1] as int - ZERO as int)
  }

  lemma {:induction false} DecimalLength(n: nat, width: nat)
    requires width >= 1 && n < Pow10(width)
    ensures |Decimal(n)| <= width
    decreases width
  {
    if n >= 10 {
      DecimalLength(n / 10, width - 1);
    }
  }

  lemma {:induction false} DecimalValue(n: nat)
    ensures Value(Decimal(n)) == n
  {
    var d := Decimal(n);
    if n >= 10 {
      DecimalValue(n / 10);
      assert d[..|d| - 1] == Decimal(n / 10);
    }
  }

  lemma {:induction false} ZerosValue(k: nat)
    ensures AllDigits(seq(k, _ => ZERO)) && Value(seq(k, _ => ZERO)) == 0
  {
    if k > 0 {
      ZerosValue(k - 1);
      assert seq(k, _ => ZERO)[..k - 1] == seq(k - 1, _ => ZERO);
    }
  }

  lemma {:induction false} LeadingZeros(k: nat, s: seq<byte>)
    requires AllDigits(s)
    ensures AllDigits(seq(k, _ => ZERO) + s) && Value(seq(k, _ => ZERO) + s) == Value(s)
    decreases |s|
  {
    var z := seq(k, _ => ZERO);
    if s == [] {
      assert z + s == z;
      ZerosValue(k);
    } else {
      LeadingZeros(k, s[..|s| - 1]);
      assert (z + s)[..|z + s| - 1] == z + s[..|s| - 1];
    }
  }

  /** `%0<width>u` of a value below 10^width has exactly `width` digits, and reading them
      back gives the value. */
  lemma ZeroPaddedRoundTrip(n: nat, width: nat)
    requires width >= 1 && n < Pow10(width)
    ensures |ZeroPadded(n, width)| == width && AllDigits(ZeroPadded(n, width))
    ensures Value(ZeroPadded(n, width)) == n
  {
    DecimalLength(n, width);
    DecimalValue(n);
    var d := Decimal(n);
    if |d| < width {
      LeadingZeros(width - |d|, d);
    }
  }

  /** Every `uint32_t` has at most ten decimal digits. */
  lemma U32FitsRandomLen(n: nat)
    requires n < U32
    ensures n < Pow10(RANDOM_LEN)
  {
    assert Pow10(2) == 100;
    assert Pow10(4) == 10000 by { assert Pow10(3) == 1000; }
    assert Pow10(6) == 1000000 by { assert Pow10(5) == 100000; }
    assert Pow10(8) == 100000000 by { assert Pow10(7) == 10000000; }
    assert Pow10(10) == 10000000000 by { assert Pow10(9) == 1000000000; }
  }

  /** The text `client_id_get` formats for the random value `rand`. */
  function FormatClientId(cfg: Config, rand: nat): seq<byte> {
    if StrLen(Literal(cfg.clientId)) > 0 then cfg.clientId
    else cfg.board + [DASH] + ZeroPadded(rand, RANDOM_LEN)
  }

  /** What `snprintf(buf, size, ...)` stores for a formatted text: as much as fits before
      the terminator, then the terminator. */
  function Snprintf(size: nat, text: seq<byte>): seq<byte>
    requires size >= 1
  {
    if |text| <= size - 1 then text + [NUL] else text[..size - 1] + [NUL]
  }

  /** A configured identifier is used as it is; otherwise the identifier is the board name,
      a dash, and exactly ten digits that spell the random value. */
  lemma ClientIdShape(cfg: Config, rand: nat)
    requires Valid(cfg) && rand < U32
    ensures |cfg.clientId| > 0 ==> FormatClientId(cfg, rand) == cfg.clientId
    ensures |cfg.clientId| == 0 ==>
      var id := FormatClientId(cfg, rand);
      var digits := id[|cfg.board| + 1..];
      && id[..|cfg.board|] == cfg.board && id[|cfg.board|] == DASH
      && |digits| == RANDOM_LEN && AllDigits(digits) && Value(digits) == rand
  {
    LiteralText(cfg.clientId);
    U32FitsRandomLen(rand);
    ZeroPaddedRoundTrip(rand, RANDOM_LEN);
    if |cfg.clientId| == 0 {
      var id := FormatClientId(cfg, rand);
      assert id[|cfg.board| + 1..] == ZeroPadded(rand, RANDOM_LEN);
    }
  }

  /** The identifier and its terminator always fit the buffer, so `snprintf` never
      truncates it and the buffer holds exactly the identifier as a C string. */
  lemma ClientIdFits(cfg: Config, rand: nat)
    requires Valid(cfg) && rand < U32
    ensures |FormatClientId(cfg, rand)| + 1 <= ClientIdBufSize(cfg)
    ensures Snprintf(ClientIdBufSize(cfg), FormatClientId(cfg, rand)) == Literal(FormatClientId(cfg, rand))
    ensures CStr(Snprintf(ClientIdBufSize(cfg), FormatClientId(cfg, rand))) == FormatClientId(cfg, rand)
  {
    LiteralText(cfg.clientId);
    U32FitsRandomLen(rand);
    ZeroPaddedRoundTrip(rand, RANDOM_LEN);
    var id := FormatClientId(cfg, rand);
    if |cfg.clientId| == 0 {
      assert forall i :: 0 <= i < |id| ==> id[i] != NUL by {
        forall i | 0 <= i < |id| ensures id[i] != NUL {
          if i > |cfg.board| {
            assert id[i] == ZeroPadded(rand, RANDOM_LEN)[i - |cfg.board| - 1];
          }
        }
      }
    }
    LiteralText(id);
  }
}
