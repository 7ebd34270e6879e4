/**
 * The string building the server's report uses: `"%d"` formatting of
 * integers and joining words with single spaces. Each operation comes with
 * its inverse (reading the digits back, splitting at spaces), so that the
 * formatted text is known to determine the values it was built from.
 */
module Text {

  // ---------------------------------------------------------------- digits

  predicate IsDigit(c: char) {
    '0' <= c <= '9'
  }

  function DigitChar(d: nat): (c: char)
    requires d < 10
    ensures IsDigit(c) && (c as int) - ('0' as int) == d
  {
    "0123456789"[d]
  }

  /** A non-empty run of decimal digits. */
  predicate IsNumeral(s: string) {
    |s| > 0 && forall i :: 0 <= i < |s| ==> IsDigit(s[i])
  }

  /** The number a run of decimal digits denotes (most significant first). */
  function DigitsValue(s: string): nat
    decreases |s|
  {
    if |s| == 0 then 0
    else DigitsValue(s[..|s| - 1]) * 10 + (if IsDigit(s[|s| - 1]) then (s[|s| - 1] as int) - ('0' as int) else 0)
  }

  /** `"%d"` of a non-negative number: its decimal digits, without leading zeros. */
  function NatToString(n: nat): string
    decreases n
  {
    if n < 10 then [DigitChar(n)] else NatToString(n / 10) + [DigitChar(n % 10)]
  }

  /** The decimal text of `n` is a numeral, it reads back as `n`, and it has a leading zero only for 0. */
  lemma {:induction false} NatToStringRoundTrip(n: nat)
    ensures IsNumeral(NatToString(n))
    ensures DigitsValue(NatToString(n)) == n
    ensures NatToString(n)[0] == '0' <==> n == 0
    decreases n
  {
    var s := NatToString(n);
    if n >= 10 {
      NatToStringRoundTrip(n / 10);
      var t := NatToString(n / 10);
      assert s == t + [DigitChar(n % 10)];
      assert s[..|s| - 1] == t;
      assert s[0] == t[0];
    }
  }

  /** `"%d"` of a signed number: a minus sign before the digits of its magnitude. */
  function IntToString(i: int): string
  {
    if i < 0 then "-" + NatToString(-i) else NatToString(i)
  }

  /** Reading a `"%d"` text back: an optional minus sign, then digits. */
  function IntValue(s: string): int
  {
    var negative := |s| > 0 && s[0] == '-';
    var magnitude: int := DigitsValue(if negative then s[1..] else s);
    if negative then -magnitude else magnitude
  }

  lemma IntToStringRoundTrip(i: int)
    ensures IntValue(IntToString(i)) == i
    ensures i < 0 ==> IntToString(i)[0] == '-' && IsNumeral(IntToString(i)[1..])
    ensures i >= 0 ==> IsNumeral(IntToString(i))
  {
    if i < 0 {
      NatToStringRoundTrip(-i);
      assert IntToString(i)[1..] == NatToString(-i);
    } else {
      NatToStringRoundTrip(i);
    }
  }

  // ---------------------------------------------------------------- words

  predicate NoSpace(w: string) {
    forall k :: 0 <= k < |w| ==> w[k] != ' '
  }

  /** The words joined by single spaces, built as a string builder does: each word after the first gets a space before it. */
  function JoinSpaced(ws: seq<string>): string
    decreases |ws|
  {
    if |ws| == 0 then ""
    else if |ws| == 1 then ws[0]
    else JoinSpaced(ws[..|ws| - 1]) + " " + ws[|ws| - 1]
  }

  /** Joining seen from the front: the first word, a space, then the rest joined. */
  lemma {:induction false} JoinSpacedCons(w: string, ws: seq<string>)
    requires |ws| > 0
    ensures JoinSpaced([w] + ws) == w + " " + JoinSpaced(ws)
    decreases |ws|
  {
    var all := [w] + ws;
    if |ws| > 1 {
      var init := ws[..|ws| - 1];
      assert all[..|all| - 1] == [w] + init;
      JoinSpacedCons(w, init);
    } else {
      assert all[..1] == [w];
    }
  }

  /** The index of the first space in `s`, or `|s|` when there is none. */
  function IndexOfSpace(s: string): (i: nat)
    ensures i <= |s|
    ensures i < |s| ==> s[i] == ' '
    ensures forall k :: 0 <= k < i ==> s[k] != ' '
    decreases |s|
  {
    if |s| == 0 || s[0] == ' ' then 0 else 1 + IndexOfSpace(s[1..])
  }

  /** Cuts `s` at every space; the inverse of JoinSpaced on words without spaces. */
  function Split(s: string): (ws: seq<string>)
    ensures |ws| > 0
    decreases |s|
  {
    var i := IndexOfSpace(s);
    if i == |s| then [s] else [s[..i]] + Split(s[i + 1..])
  }

  lemma {:induction false} SplitJoinSpaced(ws: seq<string>)
    requires |ws| > 0
    requires forall j :: 0 <= j < |ws| ==> NoSpace(ws[j])
    ensures Split(JoinSpaced(ws)) == ws
    decreases |ws|
  {
    if |ws| == 1 {
      var s := JoinSpaced(ws);
      assert s == ws[0];
    } else {
      var rest := ws[1..];
      assert ws == [ws[0]] + rest;
      JoinSpacedCons(ws[0], rest);
      var s := JoinSpaced(ws);
      var t := JoinSpaced(rest);
      assert s == ws[0] + " " + t;
      var i := IndexOfSpace(s);
      assert s[|ws[0]|] == ' ';
      assert forall k :: 0 <= k < |ws[0]| ==> s[k] == ws[0][k];
      assert s[..i] == ws[0];
      assert s[i + 1..] == t;
      SplitJoinSpaced(rest);
    }
  }
}
