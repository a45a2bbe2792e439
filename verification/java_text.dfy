/** The pieces of java.lang.String and java.lang.Integer behaviour that the game's
    logic depends on: `split` with a one-character separator (trailing empty
    strings dropped), `contains`, `Integer.parseInt`, `%d` / `%02d` formatting,
    ASCII `toLowerCase` and 32-bit `int` wrap-around. */
module JavaText {
  import opened Wrappers

  const INT_MIN: int := -0x8000_0000
  const INT_MAX: int := 0x7FFF_FFFF
  const TWO_32: int := 0x1_0000_0000

  predicate InInt32(x: int) { INT_MIN <= x <= INT_MAX }

  /** The value a Java `int` expression yields for the mathematical value x. */
  function Wrap32(x: int): (r: int)
    ensures InInt32(r)
    ensures InInt32(x) ==> r == x
    ensures (x - r) % TWO_32 == 0
  {
    var m := (x - INT_MIN) % TWO_32;
    assert x - INT_MIN == TWO_32 * ((x - INT_MIN) / TWO_32) + m;
    m + INT_MIN
  }

  // ---------------------------------------------------------------------------
  // String.split(sep) for a one-character, non-special separator

  /** All fields between occurrences of sep, empty and trailing ones included. */
  function Pieces(s: string, sep: char): (r: seq<string>)
    ensures |r| >= 1
    decreases |s|
  {
    if |s| == 0 then [""]
    else if s[0] == sep then [""] + Pieces(s[1..], sep)
    else
      var rest := Pieces(s[1..], sep);
      [[s[0]] + rest[0]] + rest[1..]
  }

  /** The inverse of Pieces: the fields separated by sep. */
  function Join(parts: seq<string>, sep: char): string
  {
    if |parts| == 0 then ""
    else if |parts| == 1 then parts[0]
    else parts[0] + [sep] + Join(parts[1..], sep)
  }

  /** Java's split removes every trailing empty string from the field list. */
  function StripTrailingEmpty(parts: seq<string>): (r: seq<string>)
    ensures |r| <= |parts| && r == parts[..|r|]
    ensures |r| > 0 ==> r[|r| - 1] != ""
    ensures forall i :: |r| <= i < |parts| ==> parts[i] == ""
  {
    if |parts| == 0 then []
    else if parts[|parts| - 1] == "" then StripTrailingEmpty(parts[..|parts| - 1])
    else parts
  }

  /** `s.split(sep)`: an input without a match (the empty string included) is
      returned whole; otherwise the fields with trailing empty ones dropped. */
  function Split(s: string, sep: char): seq<string>
  {
    if s == "" then [""] else StripTrailingEmpty(Pieces(s, sep))
  }

  predicate AllChar(s: string, c: char)
  {
    forall i :: 0 <= i < |s| ==> s[i] == c
  }

  predicate NoneContain(parts: seq<string>, sep: char)
  {
    forall i :: 0 <= i < |parts| ==> sep !in parts[i]
  }

  lemma {:induction false} JoinPieces(s: string, sep: char)
    ensures Join(Pieces(s, sep), sep) == s
    decreases |s|
  {
    if |s| > 0 {
      var rest := Pieces(s[1..], sep);
      JoinPieces(s[1..], sep);
      if s[0] == sep {
        assert Pieces(s, sep) == [""] + rest;
        assert ([""] + rest)[1..] == rest;
        assert s == [sep] + s[1..];
      } else {
        var p := [[s[0]] + rest[0]] + rest[1..];
        assert Pieces(s, sep) == p;
        if |rest| == 1 {
          assert s == [s[0]] + s[1..];
        } else {
          assert p[1..] == rest[1..];
          assert Join(rest, sep) == rest[0] + [sep] + Join(rest[1..], sep);
          assert s == [s[0]] + s[1..];
        }
      }
    }
  }

  lemma {:induction false} PiecesHaveNoSeparator(s: string, sep: char)
    ensures NoneContain(Pieces(s, sep), sep)
    decreases |s|
  {
    if |s| > 0 {
      PiecesHaveNoSeparator(s[1..], sep);
      var rest := Pieces(s[1..], sep);
      if s[0] != sep {
        var p := [[s[0]] + rest[0]] + rest[1..];
        forall i | 0 <= i < |p| ensures sep !in p[i] {
          if i > 0 { assert p[i] == rest[i]; }
        }
      }
    }
  }

  lemma {:induction false} PiecesOfWord(w: string, sep: char)
    requires sep !in w
    ensures Pieces(w, sep) == [w]
    decreases |w|
  {
    if |w| > 0 {
      assert sep !in w[1..] by { assert forall i :: 0 <= i < |w[1..]| ==> w[1..][i] == w[i + 1]; }
      PiecesOfWord(w[1..], sep);
      assert [w[0]] + w[1..] == w;
    }
  }

  lemma {:induction false} PiecesOfWordThen(w: string, sep: char, t: string)
    requires sep !in w
    ensures Pieces(w + [sep] + t, sep) == [w] + Pieces(t, sep)
    decreases |w|
  {
    var s := w + [sep] + t;
    if |w| == 0 {
      assert s == [sep] + t;
      assert s[1..] == t;
    } else {
      assert sep !in w[1..] by { assert forall i :: 0 <= i < |w[1..]| ==> w[1..][i] == w[i + 1]; }
      PiecesOfWordThen(w[1..], sep, t);
      assert s[1..] == w[1..] + [sep] + t;
      assert [w[0]] + w[1..] == w;
    }
  }

  /** Splitting what Join produced gives the fields back. */
  lemma {:induction false} PiecesJoin(parts: seq<string>, sep: char)
    requires |parts| >= 1 && NoneContain(parts, sep)
    ensures Pieces(Join(parts, sep), sep) == parts
    decreases |parts|
  {
    if |parts| == 1 {
      PiecesOfWord(parts[0], sep);
    } else {
      assert NoneContain(parts[1..], sep) by {
        forall i | 0 <= i < |parts[1..]| ensures sep !in parts[1..][i] { assert parts[1..][i] == parts[i + 1]; }
      }
      PiecesJoin(parts[1..], sep);
      assert sep !in parts[0];
      PiecesOfWordThen(parts[0], sep, Join(parts[1..], sep));
      assert [parts[0]] + parts[1..] == parts;
    }
  }

  /** The fields of a split put back together (with the dropped trailing empty
      fields restored) are exactly the input. */
  lemma SplitRestores(s: string, sep: char)
    requires s != ""
    ensures var r := Split(s, sep);
      var p := Pieces(s, sep);
      p == r + p[|r|..] && Join(p, sep) == s && NoneContain(r, sep)
  {
    JoinPieces(s, sep);
    PiecesHaveNoSeparator(s, sep);
    var r := Split(s, sep);
    var p := Pieces(s, sep);
    assert r == p[..|r|];
    assert p == p[..|r|] + p[|r|..];
    forall i | 0 <= i < |r| ensures sep !in r[i] { assert r[i] == p[i]; }
  }

  /** A join of non-empty-ended, separator-free fields splits back into them. */
  lemma SplitJoin(parts: seq<string>, sep: char)
    requires |parts| >= 1 && NoneContain(parts, sep) && parts[|parts| - 1] != ""
    requires Join(parts, sep) != ""
    ensures Split(Join(parts, sep), sep) == parts
  {
    PiecesJoin(parts, sep);
  }

  lemma {:induction false} PiecesOfSeparators(s: string, sep: char)
    requires AllChar(s, sep)
    ensures forall i :: 0 <= i < |Pieces(s, sep)| ==> Pieces(s, sep)[i] == ""
    decreases |s|
  {
    if |s| > 0 {
      PiecesOfSeparators(s[1..], sep);
    }
  }

  lemma {:induction false} JoinOfEmpties(parts: seq<string>, sep: char)
    requires forall i :: 0 <= i < |parts| ==> parts[i] == ""
    ensures AllChar(Join(parts, sep), sep)
    decreases |parts|
  {
    if |parts| > 1 {
      JoinOfEmpties(parts[1..], sep);
    }
  }

  /** `split` yields no field at all exactly when the input is a non-empty run
      of separators ("\n".split("\n") has length 0). */
  lemma SplitEmptyIff(s: string, sep: char)
    ensures |Split(s, sep)| == 0 <==> s != "" && AllChar(s, sep)
  {
    if s != "" {
      var p := Pieces(s, sep);
      if AllChar(s, sep) {
        PiecesOfSeparators(s, sep);
      }
      if |Split(s, sep)| == 0 {
        JoinPieces(s, sep);
        JoinOfEmpties(p, sep);
      }
    }
  }

  lemma FirstPieceStart(s: string, sep: char)
    requires |s| > 0 && s[0] != sep
    ensures |Pieces(s, sep)[0]| > 0 && Pieces(s, sep)[0][0] == s[0]
  {
  }

  /** A string that starts with something other than the separator always has
      a first field. */
  lemma SplitNonEmpty(s: string, sep: char)
    requires s == "" || s[0] != sep
    ensures |Split(s, sep)| >= 1
  {
    if s != "" {
      FirstPieceStart(s, sep);
    }
  }

  // ---------------------------------------------------------------------------
  // String.contains

  predicate OccursAt(s: string, sub: string, i: int)
  {
    0 <= i <= |s| - |sub| && s[i..i + |sub|] == sub
  }

  predicate Contains(s: string, sub: string)
  {
    exists i | 0 <= i <= |s| :: OccursAt(s, sub, i)
  }

  // ---------------------------------------------------------------------------
  // Integer.parseInt and %d

  predicate IsDigit(c: char) { '0' <= c <= '9' }

  predicate AllDigits(s: string)
  {
    forall i :: 0 <= i < |s| ==> IsDigit(s[i])
  }

  function DigitsValue(ds: string): nat
    requires AllDigits(ds)
  {
    if |ds| == 0 then 0
    else 10 * DigitsValue(ds[..|ds| - 1]) + (ds[|ds| - 1] as int - '0' as int)
  }

  /** `Integer.parseInt(s)`: an optional sign, at least one decimal digit and a
      value that fits in an int; None where Java throws NumberFormatException. */
  function ParseInt(s: string): (r: Option<int>)
    ensures r.Some? ==> InInt32(r.value)
  {
    var signed := |s| > 0 && (s[0] == '-' || s[0] == '+');
    var body := if signed then s[1..] else s;
    if |body| == 0 || !AllDigits(body) then None
    else
      var v: int := if |s| > 0 && s[0] == '-' then 0 - DigitsValue(body) as int else DigitsValue(body);
      if InInt32(v) then Some(v) else None
  }

  function DigitChar(d: nat): char
    requires d < 10
  {
    ('0' as int + d) as char
  }

  /** Decimal digits of n, most significant first, no leading zeros. */
  function NatDigits(n: nat): (r: string)
    ensures |r| >= 1 && AllDigits(r)
  {
    if n < 10 then [DigitChar(n)] else NatDigits(n / 10) + [DigitChar(n % 10)]
  }

  /** `String.format("%d", n)`. */
  function IntToString(n: int): (r: string)
    ensures |r| >= 1
  {
    if n < 0 then "-" + NatDigits(-n) else NatDigits(n)
  }

  lemma {:induction false} NatDigitsValue(n: nat)
    ensures DigitsValue(NatDigits(n)) == n
  {
    if n >= 10 {
      NatDigitsValue(n / 10);
      var ds := NatDigits(n);
      assert ds[..|ds| - 1] == NatDigits(n / 10);
    }
  }

  /** `%d` output is read back by parseInt: formatting then parsing is the identity on ints. */
  lemma ParseFormattedInt(n: int)
    requires InInt32(n)
    ensures ParseInt(IntToString(n)) == Some(n)
  {
    if n < 0 {
      NatDigitsValue(-n);
      var s := IntToString(n);
      assert s[1..] == NatDigits(-n);
    } else {
      NatDigitsValue(n);
      assert NatDigits(n)[0] != '-' && NatDigits(n)[0] != '+';
    }
  }

  /** Different ints print differently. */
  lemma IntToStringInjective(a: int, b: int)
    requires InInt32(a) && InInt32(b)
    ensures IntToString(a) == IntToString(b) ==> a == b
  {
    ParseFormattedInt(a);
    ParseFormattedInt(b);
  }

  /** `String.format("%02d", n)` for 0 <= n < 100. */
  function TwoDigits(n: nat): (r: string)
    requires n < 100
    ensures |r| == 2 && AllDigits(r) && DigitsValue(r) == n
  {
    var r := [DigitChar(n / 10), DigitChar(n % 10)];
    assert r[..1] == [DigitChar(n / 10)];
    assert r[..1][..0] == [];
    assert DigitsValue(r[..1]) == n / 10;
    r
  }

  // ---------------------------------------------------------------------------
  // String.toLowerCase on ASCII letters

  function LowerChar(c: char): char
  {
    if 'A' <= c <= 'Z' then (c as int - 'A' as int + 'a' as int) as char else c
  }

  function ToLower(s: string): (r: string)
    ensures |r| == |s|
    ensures forall i :: 0 <= i < |s| ==> r[i] == LowerChar(s[i])
  {
    seq(|s|, i requires 0 <= i < |s| => LowerChar(s[i]))
  }
}
