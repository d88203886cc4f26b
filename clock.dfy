/**
 * Clock times of the form HH:MM:SS<sep>mmm, read as milliseconds since
 * midnight. SRT uses ',' as the separator and DFXP uses '.'.
 */
module Clock {
  import opened Results

  const MsPerDay: nat := 86_400_000

  /** A time of day with millisecond precision (a datetime on 1900-01-01). */
  type Ms = n: nat | n < MsPerDay

  predicate IsDigit(c: char) {
    '0' <= c <= '9'
  }

  function DigitValue(c: char): (n: nat)
    requires IsDigit(c)
    ensures n < 10
  {
    (c as int) - ('0' as int)
  }

  function DigitChar(n: nat): (c: char)
    requires n < 10
    ensures IsDigit(c) && DigitValue(c) == n
  {
    (('0' as int) + n) as char
  }

  /** The digit positions and literal characters of HH:MM:SS?mmm, any separator. */
  predicate HasShape(t: string) {
    |t| == 12 &&
    IsDigit(t[0]) && IsDigit(t[1]) && t[2] == ':' &&
    IsDigit(t[3]) && IsDigit(t[4]) && t[5] == ':' &&
    IsDigit(t[6]) && IsDigit(t[7]) &&
    IsDigit(t[9]) && IsDigit(t[10]) && IsDigit(t[11])
  }

  function Two(a: char, b: char): nat
    requires IsDigit(a) && IsDigit(b)
  {
    DigitValue(a) * 10 + DigitValue(b)
  }

  /**
   * strptime(t, "%H:%M:%S<sep>%f") restricted to two-digit fields and a
   * three-digit fraction: hours 00-23, minutes and seconds 00-59.
   */
  function Parse(t: string, sep: char): (r: Option<Ms>)
    ensures r.Some? ==> HasShape(t) && t[8] == sep
  {
    if !HasShape(t) || t[8] != sep then None
    else
      var h := Two(t[0], t[1]);
      var m := Two(t[3], t[4]);
      var s := Two(t[6], t[7]);
      var f := DigitValue(t[9]) * 100 + Two(t[10], t[11]);
      if h > 23 || m > 59 || s > 59 then None
      else Some(((h * 60 + m) * 60 + s) * 1000 + f)
  }

  /** strftime("%H:%M:%S.%f")[:-3] with the given separator: the inverse of Parse. */
  function Format(ms: Ms, sep: char): (t: string)
    ensures HasShape(t) && t[8] == sep
    ensures Parse(t, sep) == Some(ms)
  {
    var f := ms % 1000;
    var secs := ms / 1000;
    var s := secs % 60;
    var mins := secs / 60;
    var m := mins % 60;
    var h := mins / 60;
    Fields(ms);
    DigitsParse(h, m, s, f, sep);
    Digits(h, m, s, f, sep)
  }

  /** HH:MM:SS<sep>mmm for the given fields, each zero-padded. */
  function Digits(h: nat, m: nat, s: nat, f: nat, sep: char): string
    requires h < 100 && m < 100 && s < 100 && f < 1000
  {
    [DigitChar(h / 10), DigitChar(h % 10), ':',
     DigitChar(m / 10), DigitChar(m % 10), ':',
     DigitChar(s / 10), DigitChar(s % 10), sep,
     DigitChar(f / 100), DigitChar(f / 10 % 10), DigitChar(f % 10)]
  }

  /** Parse reads the fields back from their digits. */
  lemma DigitsParse(h: nat, m: nat, s: nat, f: nat, sep: char)
    requires h < 24 && m < 60 && s < 60 && f < 1000
    ensures var t := Digits(h, m, s, f, sep);
      HasShape(t) && t[8] == sep && Parse(t, sep) == Some(((h * 60 + m) * 60 + s) * 1000 + f)
  {
    var t := Digits(h, m, s, f, sep);
    TwoOf(h, t[0], t[1]);
    TwoOf(m, t[3], t[4]);
    TwoOf(s, t[6], t[7]);
    ThreeOf(f, t[9], t[10], t[11]);
  }

  /** The fields of a time of day, and how they add back up to it. */
  lemma Fields(ms: Ms)
    ensures var secs := ms / 1000; var mins := secs / 60;
      mins / 60 < 24 &&
      ((mins / 60 * 60 + mins % 60) * 60 + secs % 60) * 1000 + ms % 1000 == ms
  {
    var secs := ms / 1000;
    var mins := secs / 60;
    assert secs < 86400;
    assert mins < 1440;
    assert mins / 60 * 60 + mins % 60 == mins;
    assert mins * 60 + secs % 60 == secs;
    assert secs * 1000 + ms % 1000 == ms;
  }

  lemma TwoOf(n: nat, a: char, b: char)
    requires n < 100 && a == DigitChar(n / 10) && b == DigitChar(n % 10)
    ensures Two(a, b) == n
  {
  }

  lemma ThreeOf(n: nat, a: char, b: char, c: char)
    requires n < 1000 && a == DigitChar(n / 100) && b == DigitChar(n / 10 % 10) && c == DigitChar(n % 10)
    ensures DigitValue(a) * 100 + Two(b, c) == n
  {
    assert n / 10 % 10 * 10 + n % 10 == n % 100;
  }

  /** Every time Parse accepts is printed back exactly as it was written. */
  lemma FormatParse(t: string, sep: char)
    requires Parse(t, sep).Some?
    ensures Format(Parse(t, sep).value, sep) == t
  {
    var u := Format(Parse(t, sep).value, sep);
    ParseInjective(u, t, sep);
  }

  /** Two times Parse reads as the same instant are the same text. */
  lemma ParseInjective(t: string, u: string, sep: char)
    requires Parse(t, sep).Some? && Parse(t, sep) == Parse(u, sep)
    ensures t == u
  {
    var v := Parse(t, sep).value;
    FieldsOfValue(Two(t[0], t[1]), Two(t[3], t[4]), Two(t[6], t[7]), DigitValue(t[9]) * 100 + Two(t[10], t[11]));
    FieldsOfValue(Two(u[0], u[1]), Two(u[3], u[4]), Two(u[6], u[7]), DigitValue(u[9]) * 100 + Two(u[10], u[11]));
    TwoInjective(t[0], t[1], u[0], u[1]);
    TwoInjective(t[3], t[4], u[3], u[4]);
    TwoInjective(t[6], t[7], u[6], u[7]);
    ThreeInjective(t[9], t[10], t[11], u[9], u[10], u[11]);
    assert forall i | 0 <= i < 12 :: t[i] == u[i];
  }

  /** The fields of a time of day are its digits in a mixed radix, so they are determined by it. */
  lemma FieldsOfValue(h: nat, m: nat, s: nat, f: nat)
    requires h < 24 && m < 60 && s < 60 && f < 1000
    ensures var v := ((h * 60 + m) * 60 + s) * 1000 + f;
      f == v % 1000 && s == v / 1000 % 60 && m == v / 1000 / 60 % 60 && h == v / 1000 / 60 / 60
  {
    var mins := h * 60 + m;
    var secs := mins * 60 + s;
    DivMod(secs, f, 1000);
    DivMod(mins, s, 60);
    DivMod(h, m, 60);
  }

  lemma TwoInjective(a: char, b: char, c: char, d: char)
    requires IsDigit(a) && IsDigit(b) && IsDigit(c) && IsDigit(d) && Two(a, b) == Two(c, d)
    ensures a == c && b == d
  {
  }

  lemma ThreeInjective(a: char, b: char, c: char, x: char, y: char, z: char)
    requires IsDigit(a) && IsDigit(b) && IsDigit(c) && IsDigit(x) && IsDigit(y) && IsDigit(z)
    requires DigitValue(a) * 100 + Two(b, c) == DigitValue(x) * 100 + Two(y, z)
    ensures a == x && b == y && c == z
  {
    DivMod(DigitValue(a), Two(b, c), 100);
    DivMod(DigitValue(x), Two(y, z), 100);
    TwoInjective(b, c, y, z);
  }

  lemma DivMod(q: nat, r: nat, k: nat)
    requires k == 10 || k == 60 || k == 100 || k == 1000
    requires r < k
    ensures (q * k + r) / k == q && (q * k + r) % k == r
  {
    if k == 10 {
      assert (q * 10 + r) / 10 == q;
    } else if k == 60 {
      assert (q * 60 + r) / 60 == q;
    } else if k == 100 {
      assert (q * 100 + r) / 100 == q;
    } else {
      assert (q * 1000 + r) / 1000 == q;
    }
  }
}
