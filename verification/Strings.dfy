/** Strings as the repository uses them. A Go string is modelled as a Dafny string whose characters
    are its bytes; nothing below needs the characters to stay under 256, so the results hold for a
    larger class of strings than the program meets. */
module Strings {

  /** The library calls this model does not look into. `trim` is strings.TrimSpace, `lower` is
      strings.ToLower, `ipv4` accepts the addresses net.ParseIP and To4 accept, `hostPort` is the
      target address check. */
  datatype Text = Text(
    trim: string -> string,
    lower: string -> string,
    ipv4: string -> bool,
    hostPort: string -> bool)
  {
    /** What the proofs need to know about the two library functions. */
    ghost predicate Laws() {
      && (forall s :: trim(trim(s)) == trim(s))
      && trim("") == ""
      && (forall s :: lower(s) == "" ==> s == "")
      && lower("l7-http") == "l7-http"
      && lower("l4-tcp") == "l4-tcp"
      && lower("l4-udp") == "l4-udp"
    }

    /** The form in which hosts, layers and strategies are compared. */
    function Fold(s: string): string { lower(trim(s)) }
  }

  /** Go's `<` on strings: bytewise lexicographic order. */
  predicate Less(a: string, b: string) {
    b != "" && (a == "" || a[0] < b[0] || (a[0] == b[0] && Less(a[1..], b[1..])))
  }

  lemma LessIrreflexive(a: string)
    ensures !Less(a, a)
  {}

  lemma LessTotal(a: string, b: string)
    ensures Less(a, b) || a == b || Less(b, a)
  {
    if a != "" && b != "" && a[0] == b[0] {
      LessTotal(a[1..], b[1..]);
      assert a[1..] == b[1..] ==> a == [a[0]] + a[1..] == b;
    }
  }

  lemma LessTransitive(a: string, b: string, c: string)
    requires Less(a, b) && Less(b, c)
    ensures Less(a, c)
  {}

  lemma LessAsymmetric(a: string, b: string)
    requires Less(a, b)
    ensures !Less(b, a)
  {
    if Less(b, a) {
      LessTransitive(a, b, a);
      LessIrreflexive(a);
    }
  }

  lemma LessOfExtension(a: string, c: char)
    ensures Less(a, a + [c])
  {
    if a != "" {
      assert (a + [c])[1..] == a[1..] + [c];
      LessOfExtension(a[1..], c);
    }
  }

  // Decimal numerals, as strconv.Itoa and strconv.FormatInt write them.

  predicate IsDigit(c: char) { '0' <= c <= '9' }

  function Digit(d: nat): (c: char)
    requires d < 10
    ensures IsDigit(c)
  {
    ('0' as int + d) as char
  }

  function Numeral(n: nat): (s: string)
    ensures s != "" && forall i :: 0 <= i < |s| ==> IsDigit(s[i])
  {
    if n < 10 then [Digit(n)] else Numeral(n / 10) + [Digit(n % 10)]
  }

  function Itoa(n: int): (s: string)
    ensures s != "" && forall i :: 0 <= i < |s| ==> IsDigit(s[i]) || s[i] == '-'
  {
    if n < 0 then "-" + Numeral(-n) else Numeral(n)
  }

  /** The number a sequence of digits stands for. */
  function Value(s: string): nat
    requires forall i :: 0 <= i < |s| ==> IsDigit(s[i])
  {
    if s == "" then 0
    else
      assert IsDigit(s[|s| - 1]);
      10 * Value(s[..|s| - 1]) + (s[|s| - 1] as int - '0' as int)
  }

  lemma {:induction false} NumeralReadsBack(n: nat)
    ensures Value(Numeral(n)) == n
  {
    var s := Numeral(n);
    if n < 10 {
      assert s[..0] == "" && s[0] == Digit(n);
    } else {
      NumeralReadsBack(n / 10);
      assert s[..|s| - 1] == Numeral(n / 10) && s[|s| - 1] == Digit(n % 10);
    }
  }

  /** net.JoinHostPort: a host with a colon goes into brackets. */
  function JoinHostPort(host: string, port: int): string {
    (if ':' in host then "[" + host + "]" else host) + ":" + Itoa(port)
  }

  lemma NumeralInjective(m: nat, n: nat)
    requires Numeral(m) == Numeral(n)
    ensures m == n
  {
    var s, t := Numeral(m), Numeral(n);
    if m >= 10 && n >= 10 {
      assert s[..|s| - 1] == Numeral(m / 10) && t[..|t| - 1] == Numeral(n / 10);
      assert s[|s| - 1] == Digit(m % 10) && t[|t| - 1] == Digit(n % 10);
      NumeralInjective(m / 10, n / 10);
    } else {
      assert s[|s| - 1] == Digit(m % 10) && t[|t| - 1] == Digit(n % 10);
      assert m < 10 <==> |s| == 1;
      assert n < 10 <==> |t| == 1;
    }
  }

  lemma ItoaInjective(m: int, n: int)
    requires Itoa(m) == Itoa(n)
    ensures m == n
  {
    assert IsDigit(Itoa(m)[0]) <==> m >= 0;
    assert IsDigit(Itoa(n)[0]) <==> n >= 0;
    if m < 0 && n < 0 {
      assert Itoa(m)[1..] == Numeral(-m) && Itoa(n)[1..] == Numeral(-n);
      NumeralInjective(-m, -n);
    } else if m >= 0 && n >= 0 {
      NumeralInjective(m, n);
    }
  }

  /** A field followed by a separator that the rest never contains can be read back: the last
      separator of the whole is the one written. */
  lemma {:induction false} SplitAtLast(a: string, x: string, b: string, y: string, sep: char)
    requires a + [sep] + x == b + [sep] + y
    requires sep !in x && sep !in y
    ensures a == b && x == y
  {
    var w := a + [sep] + x;
    assert w[|a|] == sep && w[|b|] == sep;
    assert forall k :: |a| < k < |w| ==> w[k] == x[k - |a| - 1];
    assert forall k :: |b| < k < |w| ==> w[k] == y[k - |b| - 1];
    assert |a| == |b|;
    assert a == w[..|a|] == b;
    assert x == w[|a| + 1..] == y;
  }
}
