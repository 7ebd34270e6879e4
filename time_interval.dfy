/**
 * The duration formatter of the statistics report: a millisecond count is
 * shown as up to four parts "<n> <unit>" (days, hours, minutes, seconds,
 * largest first) joined by single spaces, each present only when non-zero,
 * and as "0 secs" when every part is zero.
 */
module TimeInterval {

  import opened Wrappers
  import opened Ints
  import opened Text

  /** The singular word when the number is exactly one, the plural word otherwise. */
  function PluralNumber(num: int, singular: string, plural: string): (word: string)
    ensures word == singular || word == plural
    ensures singular != plural ==> (word == singular <==> num == 1)
  {
    if num == 1 then singular else plural
  }

  // The four components, computed by the same chains of unsigned divisions as the server.

  function Days(ms: nat): nat { ms / 1000 / 60 / 60 / 24 }
  function Hours(ms: nat): nat { ms / 1000 / 60 / 60 % 24 }
  function Mins(ms: nat): nat { ms / 1000 / 60 % 60 }
  function Secs(ms: nat): nat { ms / 1000 % 60 }

  /** One "<n> <unit>" part of the text. */
  datatype Part = Part(count: nat, unit: string)

  function MakePart(n: nat, singular: string, plural: string): Part
  {
    Part(n, PluralNumber(n, singular, plural))
  }

  /** `"%d %s"` of a part. */
  function PartText(p: Part): string
  {
    NatToString(p.count) + " " + p.unit
  }

  function PartTexts(ps: seq<Part>): seq<string>
  {
    seq(|ps|, i requires 0 <= i < |ps| => PartText(ps[i]))
  }

  /** The part for a component when it is non-zero, nothing otherwise. */
  function OptionalPart(n: nat, singular: string, plural: string): seq<Part>
  {
    if n > 0 then [MakePart(n, singular, plural)] else []
  }

  /** The parts that are shown: the non-zero components, largest unit first. */
  function NonZeroParts(ms: nat): seq<Part>
  {
    OptionalPart(Days(ms), "day", "days") + OptionalPart(Hours(ms), "hour", "hours")
    + OptionalPart(Mins(ms), "min", "mins") + OptionalPart(Secs(ms), "sec", "secs")
  }

  /** The text the formatter produces for `ms` milliseconds. */
  function IntervalText(ms: nat): string
  {
    var ps := NonZeroParts(ms);
    if |ps| == 0 then "0 secs" else JoinSpaced(PartTexts(ps))
  }

  /** The first `count` slots of `result` hold the texts of `parts`. */
  ghost predicate Filled(result: array<string>, count: nat, parts: seq<Part>)
    reads result
  {
    count == |parts| <= result.Length &&
    forall k :: 0 <= k < count ==> result[k] == PartText(parts[k])
  }

  /** `if (n > 0) result[result_count++] = "<n> <unit>"`: one step of filling the parts array. */
  method AppendPart(result: array<string>, count: nat, ghost parts: seq<Part>, n: nat, singular: string, plural: string)
    returns (newCount: nat)
    requires Filled(result, count, parts) && (n > 0 ==> count < result.Length)
    modifies result
    ensures Filled(result, newCount, parts + OptionalPart(n, singular, plural))
    ensures newCount == if n > 0 then count + 1 else count
    ensures forall k :: 0 <= k < result.Length && (n == 0 || k != count) ==> result[k] == old(result[k])
  {
    newCount := count;
    if n > 0 {
      result[newCount] := NatToString(n) + " " + PluralNumber(n, singular, plural);
      newCount := newCount + 1;
    }
  }

  lemma FilledTexts(result: array<string>, count: nat, parts: seq<Part>)
    requires Filled(result, count, parts)
    ensures result[..count] == PartTexts(parts)
  {
  }

  /**
   * The formatter as the server runs it: the non-zero parts are written into
   * a four-slot array through a running count, then appended to a string
   * builder with a single space before every part but the first.
   */
  method DisplayTimeInterval(diffMsecs: u32) returns (r: string)
    ensures r == IntervalText(diffMsecs)
  {
    var result := new string[4];
    var resultCount := 0;

    var days := diffMsecs / 1000 / 60 / 60 / 24;
    resultCount := AppendPart(result, resultCount, [], days, "day", "days");
    var hours := diffMsecs / 1000 / 60 / 60 % 24;
    resultCount := AppendPart(result, resultCount, OptionalPart(days, "day", "days"), hours, "hour", "hours");
    ghost var shown := OptionalPart(days, "day", "days") + OptionalPart(hours, "hour", "hours");
    var mins := diffMsecs / 1000 / 60 % 60;
    resultCount := AppendPart(result, resultCount, shown, mins, "min", "mins");
    shown := shown + OptionalPart(mins, "min", "mins");
    var secs := diffMsecs / 1000 % 60;
    resultCount := AppendPart(result, resultCount, shown, secs, "sec", "secs");
    shown := shown + OptionalPart(secs, "sec", "secs");
    assert shown == NonZeroParts(diffMsecs);
    FilledTexts(result, resultCount, shown);

    if resultCount == 0 {
      return "0 secs";
    }
    r := JoinParts(result, resultCount);
  }

  /** The string builder: the first `count` texts, with a single space before every one but the first. */
  method JoinParts(result: array<string>, count: nat) returns (sb: string)
    requires count <= result.Length
    ensures sb == JoinSpaced(result[..count])
  {
    sb := "";
    for i := 0 to count
      invariant sb == JoinSpaced(result[..i])
    {
      if i > 0 {
        sb := sb + " ";
      }
      sb := sb + result[i];
      assert result[..i + 1][..i] == result[..i];
    }
  }

  // ---------------------------------------------------------------- arithmetic

  /** Multiplying by a positive number keeps a strict order at least one multiple apart. */
  lemma MulStep(x: nat, y: nat, d: nat)
    ensures x < y ==> x * d + d <= y * d
  {
    if x < y {
      var e := y - x - 1;
      assert y * d == (x + 1 + e) * d == x * d + d + e * d;
    }
  }

  /** Division is determined by a quotient and a remainder below the divisor. */
  lemma DivUnique(a: nat, d: nat, q: nat, r: nat)
    requires d > 0 && r < d && a == q * d + r
    ensures a / d == q
  {
    var k := a / d;
    assert a == k * d + a % d;
    MulStep(k, q, d);
    MulStep(q, k, d);
  }

  /** Regrouping a remainder of a quotient: the algebra behind `DivDiv`, free of division. */
  lemma NestedRemainders(a: nat, b: nat, c: nat, q: nat, r: nat, q2: nat, r2: nat)
    requires b > 0 && c > 0 && r < b && r2 < c
    requires a == q * b + r && q == q2 * c + r2
    ensures a == q2 * (b * c) + (r2 * b + r)
    ensures r2 * b + r < b * c
  {
    assert q * b == q2 * c * b + r2 * b;
    assert q2 * c * b == q2 * (b * c);
    MulStep(r2, c, b);
  }

  /** Dividing twice is dividing by the product. */
  lemma DivDiv(a: nat, b: nat, c: nat)
    requires b > 0 && c > 0
    ensures a / b / c == a / (b * c)
  {
    var q, r := a / b, a % b;
    var q2, r2 := q / c, q % c;
    NestedRemainders(a, b, c, q, r, q2, r2);
    DivUnique(a, b * c, q2, r2 * b + r);
  }

  /** The components are the familiar quotients and remainders, and each is below its unit's range. */
  lemma ComponentsAreDivisions(ms: nat)
    ensures Days(ms) == ms / 86400000
    ensures Hours(ms) == ms / 3600000 % 24 && Hours(ms) < 24
    ensures Mins(ms) == ms / 60000 % 60 && Mins(ms) < 60
    ensures Secs(ms) == ms / 1000 % 60 && Secs(ms) < 60
  {
    DivDiv(ms, 1000, 60);
    DivDiv(ms, 60000, 60);
    DivDiv(ms, 3600000, 24);
  }

  /** The four components recombine into the whole seconds of `ms`. */
  lemma ComponentsRecombine(ms: nat)
    ensures Days(ms) * 86400000 + Hours(ms) * 3600000 + Mins(ms) * 60000 + Secs(ms) * 1000 == ms / 1000 * 1000
  {
    var secs := ms / 1000;
    var mins := secs / 60;
    var hours := mins / 60;
    assert secs == mins * 60 + Secs(ms);
    assert mins == hours * 60 + Mins(ms);
    assert hours == Days(ms) * 24 + Hours(ms);
  }

  // ---------------------------------------------------------------- reading the text back

  /** The milliseconds one unit word stands for (0 for a word that is no unit). */
  function UnitMillis(unit: string): nat
  {
    if unit == "day" || unit == "days" then 86400000
    else if unit == "hour" || unit == "hours" then 3600000
    else if unit == "min" || unit == "mins" then 60000
    else if unit == "sec" || unit == "secs" then 1000
    else 0
  }

  /** The duration a list of parts denotes. */
  function Millis(ps: seq<Part>): nat
    decreases |ps|
  {
    if |ps| == 0 then 0 else ps[0].count * UnitMillis(ps[0].unit) + Millis(ps[1..])
  }

  /** The words of a list of parts: each part's numeral followed by its unit. */
  function PartWords(ps: seq<Part>): seq<string>
    decreases |ps|
  {
    if |ps| == 0 then [] else [NatToString(ps[0].count)] + ([ps[0].unit] + PartWords(ps[1..]))
  }

  /** Reads words back as pairs "<numeral> <unit>". */
  function ParseWords(ws: seq<string>): Option<seq<Part>>
    decreases |ws|
  {
    if |ws| == 0 then Some([])
    else if |ws| == 1 || !IsNumeral(ws[0]) then None
    else match ParseWords(ws[2..])
      case None => None
      case Some(rest) => Some([Part(DigitsValue(ws[0]), ws[1])] + rest)
  }

  /** Reads a formatted interval back into its parts. */
  function ParseInterval(s: string): Option<seq<Part>>
  {
    ParseWords(Split(s))
  }

  /** The parts the text shows: the non-zero ones, or a single "0 secs". */
  function ShownParts(ms: nat): seq<Part>
  {
    if |NonZeroParts(ms)| == 0 then [Part(0, "secs")] else NonZeroParts(ms)
  }

  lemma {:induction false} MillisAppend(a: seq<Part>, b: seq<Part>)
    ensures Millis(a + b) == Millis(a) + Millis(b)
    decreases |a|
  {
    if |a| > 0 {
      assert (a + b)[1..] == a[1..] + b;
      MillisAppend(a[1..], b);
    } else {
      assert a + b == b;
    }
  }

  lemma {:induction false} ParseWordsOfParts(ps: seq<Part>)
    ensures ParseWords(PartWords(ps)) == Some(ps)
    decreases |ps|
  {
    if |ps| > 0 {
      var ws := PartWords(ps);
      NatToStringRoundTrip(ps[0].count);
      assert ws[2..] == PartWords(ps[1..]);
      ParseWordsOfParts(ps[1..]);
      assert ps == [Part(DigitsValue(ws[0]), ws[1])] + ps[1..];
    }
  }

  lemma {:induction false} PartWordsNoSpace(ps: seq<Part>)
    requires forall i :: 0 <= i < |ps| ==> NoSpace(ps[i].unit)
    ensures forall j :: 0 <= j < |PartWords(ps)| ==> NoSpace(PartWords(ps)[j])
    decreases |ps|
  {
    if |ps| > 0 {
      NatToStringRoundTrip(ps[0].count);
      PartWordsNoSpace(ps[1..]);
      var ws := PartWords(ps);
      assert ws == [NatToString(ps[0].count)] + ([ps[0].unit] + PartWords(ps[1..]));
      forall j | 0 <= j < |ws| ensures NoSpace(ws[j]) {
        if j >= 2 {
          assert ws[j] == PartWords(ps[1..])[j - 2];
        }
      }
    }
  }

  /** A numeral, a space and a unit, joined to more words, are three more joined words. */
  lemma JoinPartStep(num: string, unit: string, rest: seq<string>)
    requires |rest| > 0
    ensures (num + " " + unit) + " " + JoinSpaced(rest) == JoinSpaced([num] + ([unit] + rest))
  {
    var tail := JoinSpaced(rest);
    calc {
      (num + " " + unit) + " " + tail;
      num + " " + (unit + " " + tail);
      { JoinSpacedCons(unit, rest); }
      num + " " + JoinSpaced([unit] + rest);
      { JoinSpacedCons(num, [unit] + rest); }
      JoinSpaced([num] + ([unit] + rest));
    }
  }

  /** One step of `JoinPartTexts`: the first part's text joined to the rest, given the claim for the rest. */
  lemma PartTextsCons(ps: seq<Part>)
    requires |ps| > 0
    ensures PartTexts(ps) == [PartText(ps[0])] + PartTexts(ps[1..])
  {
  }

  lemma JoinPartTextsStep(ps: seq<Part>)
    requires |ps| > 1
    requires JoinSpaced(PartTexts(ps[1..])) == JoinSpaced(PartWords(ps[1..]))
    ensures JoinSpaced(PartTexts(ps)) == JoinSpaced(PartWords(ps))
  {
    var texts := PartTexts(ps[1..]);
    var tail := PartWords(ps[1..]);
    PartWordsLength(ps[1..]);
    PartTextsCons(ps);
    JoinSpacedCons(PartText(ps[0]), texts);
    JoinPartStep(NatToString(ps[0].count), ps[0].unit, tail);
  }

  /** "<n> <unit>" parts joined by spaces are the numerals and units joined by spaces. */
  lemma {:induction false} JoinPartTexts(ps: seq<Part>)
    requires |ps| > 0
    ensures JoinSpaced(PartTexts(ps)) == JoinSpaced(PartWords(ps))
    decreases |ps|
  {
    if |ps| == 1 {
      var num := NatToString(ps[0].count);
      assert PartTexts(ps) == [num + " " + ps[0].unit];
      assert PartWords(ps) == [num, ps[0].unit];
      assert [num, ps[0].unit][..1] == [num];
    } else {
      JoinPartTexts(ps[1..]);
      JoinPartTextsStep(ps);
    }
  }

  lemma {:induction false} PartWordsLength(ps: seq<Part>)
    ensures |PartWords(ps)| == 2 * |ps|
    decreases |ps|
  {
    if |ps| > 0 {
      PartWordsLength(ps[1..]);
    }
  }

  /** The units the formatter writes contain no space. */
  lemma ShownUnitsNoSpace(ms: nat)
    ensures forall i :: 0 <= i < |ShownParts(ms)| ==> NoSpace(ShownParts(ms)[i].unit)
  {
    NonZeroPartsShape(ms);
    assert NoSpace("day") && NoSpace("days") && NoSpace("hour") && NoSpace("hours");
    assert NoSpace("min") && NoSpace("mins") && NoSpace("sec") && NoSpace("secs");
  }

  /** Every part of a list joined by spaces is read back by ParseInterval. */
  lemma ParseJoinedParts(ps: seq<Part>)
    requires |ps| > 0
    requires forall i :: 0 <= i < |ps| ==> NoSpace(ps[i].unit)
    ensures ParseInterval(JoinSpaced(PartTexts(ps))) == Some(ps)
  {
    JoinPartTexts(ps);
    PartWordsNoSpace(ps);
    SplitJoinSpaced(PartWords(ps));
    ParseWordsOfParts(ps);
  }

  // ---------------------------------------------------------------- properties of the text

  lemma ShownPartsJoined(ms: nat)
    ensures IntervalText(ms) == JoinSpaced(PartTexts(ShownParts(ms)))
  {
    if |NonZeroParts(ms)| == 0 {
      assert PartTexts(ShownParts(ms)) == [NatToString(0) + " " + "secs"];
    }
  }

  /** The text determines its parts: reading it back yields exactly the parts shown. */
  lemma IntervalTextRoundTrip(ms: nat)
    ensures ParseInterval(IntervalText(ms)) == Some(ShownParts(ms))
  {
    ShownPartsJoined(ms);
    ShownUnitsNoSpace(ms);
    ParseJoinedParts(ShownParts(ms));
  }

  lemma MillisOfOptionalPart(n: nat, singular: string, plural: string, unitMillis: nat)
    requires UnitMillis(singular) == unitMillis && UnitMillis(plural) == unitMillis
    ensures Millis(OptionalPart(n, singular, plural)) == n * unitMillis
  {
    if n > 0 {
      var p := MakePart(n, singular, plural);
      assert OptionalPart(n, singular, plural) == [p];
      assert [p][1..] == [];
    }
  }

  /** The parts shown add up to the whole seconds of the interval: only the sub-second rest is dropped. */
  lemma IntervalTextDenotes(ms: nat)
    ensures Millis(ShownParts(ms)) == ms / 1000 * 1000
  {
    ComponentsRecombine(ms);
    var d := OptionalPart(Days(ms), "day", "days");
    var h := OptionalPart(Hours(ms), "hour", "hours");
    var m := OptionalPart(Mins(ms), "min", "mins");
    var s := OptionalPart(Secs(ms), "sec", "secs");
    MillisOfOptionalPart(Days(ms), "day", "days", 86400000);
    MillisOfOptionalPart(Hours(ms), "hour", "hours", 3600000);
    MillisOfOptionalPart(Mins(ms), "min", "mins", 60000);
    MillisOfOptionalPart(Secs(ms), "sec", "secs", 1000);
    MillisAppend(d + h + m, s);
    MillisAppend(d + h, m);
    MillisAppend(d, h);
    if |NonZeroParts(ms)| == 0 {
      assert Millis(ShownParts(ms)) == 0 by {
        assert ShownParts(ms)[1..] == [];
      }
    }
  }

  /** The text is "0 secs" exactly when the interval is shorter than a second. */
  lemma ZeroSecsIffSubSecond(ms: nat)
    ensures IntervalText(ms) == "0 secs" <==> ms < 1000
  {
    var ps := NonZeroParts(ms);
    if ms < 1000 {
      assert ms / 1000 == 0;
    } else {
      IntervalTextRoundTrip(ms);
      IntervalTextRoundTrip(0);
      IntervalTextDenotes(ms);
      NonZeroPartsShape(ms);
      assert IntervalText(0) == "0 secs";
      assert |ps| > 0 && ps[0].count > 0;
      assert ShownParts(0)[0].count == 0;
      if IntervalText(ms) == "0 secs" {
        assert false;
      }
    }
  }

  /** Units strictly decrease along the list of parts. */
  ghost predicate Descending(ps: seq<Part>)
  {
    forall i, j :: 0 <= i < j < |ps| ==> UnitMillis(ps[i].unit) > UnitMillis(ps[j].unit)
  }

  /** A component's optional part goes in front of parts of smaller units, keeping them descending. */
  lemma DescendingPrepend(n: nat, singular: string, plural: string, unit: nat, rest: seq<Part>)
    requires UnitMillis(singular) == unit && UnitMillis(plural) == unit
    requires Descending(rest)
    requires forall j :: 0 <= j < |rest| ==> UnitMillis(rest[j].unit) < unit
    ensures Descending(OptionalPart(n, singular, plural) + rest)
    ensures forall j :: 0 <= j < |OptionalPart(n, singular, plural) + rest| ==>
      UnitMillis((OptionalPart(n, singular, plural) + rest)[j].unit) <= unit
  {
    var all := OptionalPart(n, singular, plural) + rest;
    if n > 0 {
      assert all == [MakePart(n, singular, plural)] + rest;
      assert UnitMillis(all[0].unit) == unit;
      forall i, j | 0 <= i < j < |all|
        ensures UnitMillis(all[i].unit) > UnitMillis(all[j].unit)
      {
        assert all[j] == rest[j - 1];
        if i > 0 {
          assert all[i] == rest[i - 1];
        }
      }
    } else {
      assert all == rest;
    }
  }

  lemma OptionalPartFacts(n: nat, singular: string, plural: string)
    ensures |OptionalPart(n, singular, plural)| <= 1
    ensures forall p :: p in OptionalPart(n, singular, plural) ==>
      n > 0 && p.count == n && p.unit == (if n == 1 then singular else plural)
  {
  }

  /** Every shown part has a positive count and one of the eight unit words, singular exactly for a count of one. */
  lemma NonZeroPartsWords(ms: nat)
    ensures forall i :: 0 <= i < |NonZeroParts(ms)| ==>
      NonZeroParts(ms)[i].count > 0 &&
      (NonZeroParts(ms)[i].count == 1 <==> NonZeroParts(ms)[i].unit in {"day", "hour", "min", "sec"}) &&
      NonZeroParts(ms)[i].unit in {"day", "days", "hour", "hours", "min", "mins", "sec", "secs"}
  {
    OptionalPartFacts(Days(ms), "day", "days");
    OptionalPartFacts(Hours(ms), "hour", "hours");
    OptionalPartFacts(Mins(ms), "min", "mins");
    OptionalPartFacts(Secs(ms), "sec", "secs");
    var ps := NonZeroParts(ms);
    forall i | 0 <= i < |ps|
      ensures ps[i].count > 0
      ensures ps[i].count == 1 <==> ps[i].unit in {"day", "hour", "min", "sec"}
      ensures ps[i].unit in {"day", "days", "hour", "hours", "min", "mins", "sec", "secs"}
    {
      assert ps[i] in ps;
    }
  }

  lemma NonZeroPartsNested(ms: nat)
    ensures NonZeroParts(ms) == OptionalPart(Days(ms), "day", "days") + (OptionalPart(Hours(ms), "hour", "hours")
      + (OptionalPart(Mins(ms), "min", "mins") + (OptionalPart(Secs(ms), "sec", "secs") + [])))
  {
    var d := OptionalPart(Days(ms), "day", "days");
    var h := OptionalPart(Hours(ms), "hour", "hours");
    var m := OptionalPart(Mins(ms), "min", "mins");
    var s := OptionalPart(Secs(ms), "sec", "secs");
    assert s + [] == s;
    assert d + h + m + s == d + (h + (m + s));
  }

  /** The shown parts run from the largest unit to the smallest. */
  lemma NonZeroPartsDescending(ms: nat)
    ensures Descending(NonZeroParts(ms))
  {
    var d := OptionalPart(Days(ms), "day", "days");
    var h := OptionalPart(Hours(ms), "hour", "hours");
    var m := OptionalPart(Mins(ms), "min", "mins");
    var s := OptionalPart(Secs(ms), "sec", "secs");
    DescendingPrepend(Secs(ms), "sec", "secs", 1000, []);
    DescendingPrepend(Mins(ms), "min", "mins", 60000, s + []);
    DescendingPrepend(Hours(ms), "hour", "hours", 3600000, m + (s + []));
    DescendingPrepend(Days(ms), "day", "days", 86400000, h + (m + (s + [])));
    NonZeroPartsNested(ms);
  }

  /**
   * Every shown part has a positive count, uses the singular word exactly when
   * its count is one, and its unit is strictly larger than the next part's.
   */
  lemma NonZeroPartsShape(ms: nat)
    ensures forall i :: 0 <= i < |NonZeroParts(ms)| ==>
      NonZeroParts(ms)[i].count > 0 &&
      (NonZeroParts(ms)[i].count == 1 <==> NonZeroParts(ms)[i].unit in {"day", "hour", "min", "sec"}) &&
      NonZeroParts(ms)[i].unit in {"day", "days", "hour", "hours", "min", "mins", "sec", "secs"}
    ensures forall i, j :: 0 <= i < j < |NonZeroParts(ms)| ==>
      UnitMillis(NonZeroParts(ms)[i].unit) > UnitMillis(NonZeroParts(ms)[j].unit)
  {
    NonZeroPartsWords(ms);
    NonZeroPartsDescending(ms);
  }

  lemma OneSecExample()
    ensures IntervalText(1500) == "1 sec"
  {
    assert Days(1500) == 0 && Hours(1500) == 0 && Mins(1500) == 0 && Secs(1500) == 1;
    assert NatToString(1) == "1";
    assert OptionalPart(1, "sec", "secs") == [Part(1, "sec")];
    assert PartText(Part(1, "sec")) == "1" + " " + "sec" == "1 sec";
    assert NonZeroParts(1500) == [] + [] + [] + [Part(1, "sec")];
    assert PartTexts([Part(1, "sec")]) == ["1 sec"];
  }

  lemma MinSecExample()
    ensures IntervalText(61000) == "1 min 1 sec"
  {
    assert Days(61000) == 0 && Hours(61000) == 0 && Mins(61000) == 1 && Secs(61000) == 1;
    assert NatToString(1) == "1";
    assert OptionalPart(1, "min", "mins") == [Part(1, "min")];
    assert PartText(Part(1, "min")) == "1" + " " + "min" == "1 min";
    assert OptionalPart(1, "sec", "secs") == [Part(1, "sec")];
    assert PartText(Part(1, "sec")) == "1" + " " + "sec" == "1 sec";
    assert NonZeroParts(61000) == [] + [] + [Part(1, "min")] + [Part(1, "sec")];
    assert PartTexts([Part(1, "min"), Part(1, "sec")]) == ["1 min", "1 sec"];
    assert ["1 min", "1 sec"][..1] == ["1 min"];
  }

  lemma DayHourExample()
    ensures IntervalText(90000000) == "1 day 1 hour"
  {
    assert Days(90000000) == 1 && Hours(90000000) == 1 && Mins(90000000) == 0 && Secs(90000000) == 0;
    assert NatToString(1) == "1";
    assert OptionalPart(1, "day", "days") == [Part(1, "day")];
    assert PartText(Part(1, "day")) == "1" + " " + "day" == "1 day";
    assert OptionalPart(1, "hour", "hours") == [Part(1, "hour")];
    assert PartText(Part(1, "hour")) == "1" + " " + "hour" == "1 hour";
    assert NonZeroParts(90000000) == [Part(1, "day")] + [Part(1, "hour")] + [] + [];
    assert PartTexts([Part(1, "day"), Part(1, "hour")]) == ["1 day", "1 hour"];
    assert ["1 day", "1 hour"][..1] == ["1 day"];
  }

  /** Four intervals and their texts: zero, 1.5 s, 61 s and 25 h. */
  lemma IntervalTextExamples()
    ensures IntervalText(0) == "0 secs"
    ensures IntervalText(1500) == "1 sec"
    ensures IntervalText(61000) == "1 min 1 sec"
    ensures IntervalText(90000000) == "1 day 1 hour"
  {
    OneSecExample();
    MinSecExample();
    DayHourExample();
  }
}
