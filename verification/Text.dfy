/** Strings as the storage keys and tile names use them: slash-separated segments and decimal numbers. */
module Text {

  // ----- Segments -----

  predicate SlashFree(s: string) {
    '/' !in s
  }

  predicate AllSlashFree(segments: seq<string>) {
    forall i :: 0 <= i < |segments| ==> SlashFree(segments[i])
  }

  /** Segments joined by single slashes. */
  function Join(segments: seq<string>): string {
    if segments == [] then ""
    else if |segments| == 1 then segments[0]
    else segments[0] + "/" + Join(segments[1..])
  }

  /** The segments between the slashes of a string. */
  function Split(s: string): (segments: seq<string>)
    ensures segments != []
  {
    if s == "" then [""]
    else if s[0] == '/' then [""] + Split(s[1..])
    else var rest := Split(s[1..]); [[s[0]] + rest[0]] + rest[1..]
  }

  lemma {:induction false} SplitOfSegment(s: string)
    requires SlashFree(s)
    ensures Split(s) == [s]
  {
    if s != "" {
      assert SlashFree(s[1..]);
      SplitOfSegment(s[1..]);
      assert [s[0]] + s[1..] == s;
    }
  }

  lemma {:induction false} SplitOfPrefix(s: string, rest: string)
    requires SlashFree(s)
    ensures Split(s + "/" + rest) == [s] + Split(rest)
  {
    var whole := s + "/" + rest;
    if s == "" {
      assert whole[1..] == rest;
    } else {
      assert SlashFree(s[1..]);
      assert whole[1..] == s[1..] + "/" + rest;
      SplitOfPrefix(s[1..], rest);
      assert [s[0]] + s[1..] == s;
    }
  }

  lemma {:induction false} SplitInvertsJoin(segments: seq<string>)
    requires segments != [] && AllSlashFree(segments)
    ensures Split(Join(segments)) == segments
  {
    if |segments| == 1 {
      SplitOfSegment(segments[0]);
    } else {
      SplitInvertsJoin(segments[1..]);
      SplitOfPrefix(segments[0], Join(segments[1..]));
    }
  }

  lemma {:induction false} JoinInvertsSplit(s: string)
    ensures AllSlashFree(Split(s)) && Join(Split(s)) == s
  {
    if s != "" {
      JoinInvertsSplit(s[1..]);
      var rest := Split(s[1..]);
      if s[0] == '/' {
        assert Split(s)[1..] == rest;
        assert Join(Split(s)) == "" + "/" + Join(rest);
      } else {
        assert Split(s)[1..] == rest[1..];
        assert Join(Split(s)) == [s[0]] + Join(rest);
      }
      assert [s[0]] + s[1..] == s;
    }
  }

  /** A joined list that ends in an empty segment is a prefix of another joined list exactly when its
      other segments are the first of that list and something follows them. */
  lemma {:induction false} PrefixOfJoin(head: seq<string>, segments: seq<string>)
    requires head != [] && segments != [] && AllSlashFree(head) && AllSlashFree(segments)
    ensures Join(head + [""]) <= Join(segments) <==> |head| < |segments| && segments[..|head|] == head
  {
    var prefix := Join(head + [""]);
    assert (head + [""])[1..] == head[1..] + [""];
    if |segments| == 1 {
      assert prefix == head[0] + "/" + Join(head[1..] + [""]);
      assert prefix[|head[0]|] == '/';
      assert forall i :: 0 <= i < |segments[0]| ==> segments[0][i] != '/';
    } else {
      var rest := Join(segments[1..]);
      var tail := Join(head[1..] + [""]);
      assert prefix == head[0] + "/" + tail;
      PrefixOfTwo(head[0], tail, segments[0], rest);
      if |head| == 1 {
        assert tail == "";
        assert segments[..1] == [segments[0]];
      } else {
        PrefixOfJoin(head[1..], segments[1..]);
        assert |head| <= |segments| ==> segments[..|head|] == [segments[0]] + segments[1..][..|head| - 1];
        assert head == [head[0]] + head[1..];
      }
    }
  }

  lemma PrefixOfTwo(a: string, x: string, b: string, y: string)
    requires SlashFree(a) && SlashFree(b)
    ensures a + "/" + x <= b + "/" + y <==> a == b && x <= y
  {
    var s, t := a + "/" + x, b + "/" + y;
    assert s[|a|] == '/' && t[|b|] == '/';
    if |a| < |b| {
      assert t[|a|] == b[|a|];
    } else if |b| < |a| {
      assert s[|b|] == a[|b|];
    } else {
      assert s[..|a|] == a && t[..|b|] == b;
      assert s[|a| + 1..] == x && t[|b| + 1..] == y;
      assert s <= t ==> s[..|a|] == t[..|b|];
      assert s <= t ==> forall i :: 0 <= i < |x| ==> x[i] == s[|a| + 1 + i] == t[|a| + 1 + i] == y[i];
    }
  }

  // ----- Decimal numbers -----

  predicate IsDigit(c: char) {
    '0' <= c <= '9'
  }

  predicate IsDigits(s: string) {
    s != "" && forall i :: 0 <= i < |s| ==> IsDigit(s[i])
  }

  function DigitChar(d: nat): (c: char)
    requires d < 10
    ensures IsDigit(c)
  {
    '0' + d as char
  }

  function DigitValue(c: char): (d: nat)
    requires IsDigit(c)
    ensures d < 10 && DigitChar(d) == c
  {
    c as int - '0' as int
  }

  /** A natural number in template-literal form: no sign, no leading zero. */
  function Decimal(n: nat): string {
    if n < 10 then [DigitChar(n)] else Decimal(n / 10) + [DigitChar(n % 10)]
  }

  /** The value of a run of digits, leading zeros and all. */
  function Number(s: string): nat
    requires forall i :: 0 <= i < |s| ==> IsDigit(s[i])
  {
    if s == "" then 0 else 10 * Number(s[..|s| - 1]) + DigitValue(s[|s| - 1])
  }

  predicate Canonical(s: string) {
    |s| == 1 || (1 < |s| && s[0] != '0')
  }

  lemma DigitValueOfChar(d: nat)
    requires d < 10
    ensures DigitValue(DigitChar(d)) == d
  {
  }

  lemma {:induction false} DecimalIsCanonical(n: nat)
    ensures IsDigits(Decimal(n)) && Canonical(Decimal(n)) && Number(Decimal(n)) == n
    ensures 0 < n ==> Decimal(n)[0] != '0'
  {
    var s := Decimal(n);
    if n < 10 {
      assert s[..|s| - 1] == "";
      DigitValueOfChar(n);
    } else {
      DecimalIsCanonical(n / 10);
      assert s[..|s| - 1] == Decimal(n / 10);
      DigitValueOfChar(n % 10);
    }
  }

  lemma {:induction false} NumberIsPositive(s: string)
    requires IsDigits(s) && s[0] != '0'
    ensures 0 < Number(s)
  {
    var n := |s| - 1;
    if n == 0 {
      assert s[..0] == "";
    } else {
      NumberIsPositive(s[..n]);
    }
  }

  lemma NumberOfLast(s: string)
    requires IsDigits(s)
    ensures Number(s) / 10 == Number(s[..|s| - 1]) && Number(s) % 10 == DigitValue(s[|s| - 1])
  {
  }

  lemma {:induction false} DecimalOfCanonical(s: string)
    requires IsDigits(s) && Canonical(s)
    ensures Decimal(Number(s)) == s
  {
    var n := |s| - 1;
    if n == 0 {
      assert s[..0] == "";
      assert [DigitChar(DigitValue(s[0]))] == s;
    } else {
      NumberIsPositive(s[..n]);
      DecimalOfCanonical(s[..n]);
      NumberOfLast(s);
      assert s == s[..n] + [s[n]];
    }
  }

  /** Printing a parsed number gives the digits back exactly when they have no leading zero. */
  lemma DecimalInvertsNumber(s: string)
    requires IsDigits(s)
    ensures Decimal(Number(s)) == s <==> Canonical(s)
  {
    DecimalIsCanonical(Number(s));
    if Canonical(s) {
      DecimalOfCanonical(s);
    }
  }

  lemma DigitsAreSlashFree(s: string)
    requires IsDigits(s)
    ensures SlashFree(s)
  {
    assert forall i :: 0 <= i < |s| ==> IsDigit(s[i]) && s[i] != '/';
  }
}
