/** The time-text helpers of the music feed: reading "m:ss" / "h:mm:ss"
    progress text into whole seconds, and writing whole seconds back as text. */
module MusicTime {
  import opened Wrappers
  import opened JsText

  /** The `{ current, total }` pair that `parseProgress` returns, in seconds. */
  datatype Progress = Progress(current: nat, total: nat)

  /** Reads every segment as a number; `None` as soon as one of them is NaN. */
  function ParseSegments(segs: seq<string>): (r: Option<seq<nat>>)
    ensures r.Some? ==> |r.value| == |segs|
  {
    if segs == [] then Some([])
    else
      match (ToNumber(segs[0]), ParseSegments(segs[1..]))
      case (Some(n), Some(ns)) => Some([n] + ns)
      case _ => None
  }

  /** `parseTimePart`: the number of seconds written as "h:m:s", "m:s" or "s".
      Blank text, or any segment that is not a number, gives 0; with four or
      more segments only the first one counts. */
  function ParseTimePart(value: string): nat {
    var clean := Trim(value);
    if clean == [] then 0
    else
      match ParseSegments(Split(clean, ':'))
      case None => 0
      case Some(ns) => Combine(ns)
  }

  /** `parseProgress`: the text before the first '/' is the current position,
      the text between the first and second '/' the total; a missing total is 0. */
  function ParseProgress(progressText: string): Progress {
    var pieces := Split(progressText, '/');
    Progress(ParseTimePart(pieces[0]),
             ParseTimePart(if |pieces| >= 2 then pieces[1] else ""))
  }

  /** The whole, non-negative number of seconds `formatSeconds` prints:
      `Math.max(0, Math.floor(x))` for a finite `x`, and 0 otherwise. */
  function SafeSeconds(seconds: Option<real>): (r: nat)
    ensures seconds.None? ==> r == 0
    ensures seconds.Some? && seconds.value < 0.0 ==> r == 0
    ensures seconds.Some? && seconds.value >= 0.0 ==>
      r as real <= seconds.value < r as real + 1.0
  {
    match seconds
    case None => 0
    case Some(x) => if x.Floor < 0 then 0 else x.Floor
  }

  /** `String(n).padStart(2, '0')`. */
  function Pad2(n: nat): (r: string)
    ensures IsDigits(r) && DigitsValue(r) == n
    ensures n < 100 ==> |r| == 2
  {
    DigitsOfNat(n);
    if n < 10 then
      var r := ['0'] + NatToString(n);
      assert r[..|r| - 1] == ['0'];
      r
    else NatToString(n)
  }

  /** The clock text of a whole number of seconds: "H:MM:SS" from one hour
      on, "M:SS" below. */
  function FormatClock(n: nat): string {
    var hours := n / 3600;
    var minutes := (n % 3600) / 60;
    var secs := n % 60;
    if hours > 0 then NatToString(hours) + ":" + Pad2(minutes) + ":" + Pad2(secs)
    else NatToString(minutes) + ":" + Pad2(secs)
  }

  /** `formatSeconds`. */
  function FormatSeconds(seconds: Option<real>): string {
    FormatClock(SafeSeconds(seconds))
  }

  /** `formatSeconds` of a whole number, the way every caller uses it. */
  function FormatInt(n: int): string {
    FormatSeconds(Some(n as real))
  }

  /** A whole number prints as the clock text of its non-negative part. */
  lemma FormatIntClock(n: int)
    ensures FormatInt(n) == FormatClock(if n < 0 then 0 else n)
  {
    assert (n as real).Floor == n;
  }

  // ---------------------------------------------------------------------
  // parseTimePart
  // ---------------------------------------------------------------------

  lemma DigitsNoColon(s: string)
    requires IsDigits(s)
    ensures ':' !in s && '/' !in s
  {
  }

  lemma DigitsNumber(s: string)
    requires IsDigits(s)
    ensures ToNumber(s) == Some(DigitsValue(s))
  {
    if s != [] {
      assert !IsSpace(s[0]) && !IsSpace(s[|s| - 1]) by {
        assert IsDigit(s[0]) && IsDigit(s[|s| - 1]);
      }
      TrimIdentity(s);
    }
  }

  /** The values of segments that are all digit strings. */
  function Values(segs: seq<string>): (r: seq<nat>)
    requires forall i :: 0 <= i < |segs| ==> IsDigits(segs[i])
    ensures |r| == |segs|
    ensures forall i :: 0 <= i < |segs| ==> r[i] == DigitsValue(segs[i])
  {
    if segs == [] then [] else [DigitsValue(segs[0])] + Values(segs[1..])
  }

  /** The seconds of the segment values "h:m:s", "m:s" or "s" (only the first
      of four or more). */
  function Combine(ns: seq<nat>): nat
    requires |ns| >= 1
  {
    if |ns| == 3 then ns[0] * 3600 + ns[1] * 60 + ns[2]
    else if |ns| == 2 then ns[0] * 60 + ns[1]
    else ns[0]
  }

  predicate DigitsOrColons(t: string) {
    forall i :: 0 <= i < |t| ==> IsDigit(t[i]) || t[i] == ':'
  }

  lemma {:induction false} JoinDigits(segs: seq<string>)
    requires forall i :: 0 <= i < |segs| ==> IsDigits(segs[i])
    ensures DigitsOrColons(Join(segs, ':'))
    ensures |segs| >= 2 ==> ':' in Join(segs, ':')
  {
    if |segs| >= 2 {
      JoinDigits(segs[1..]);
      var t := Join(segs, ':');
      assert t == segs[0] + [':'] + Join(segs[1..], ':');
      assert t[|segs[0]|] == ':';
    }
  }

  lemma {:induction false} ParseSegmentsOfDigits(segs: seq<string>)
    requires forall i :: 0 <= i < |segs| ==> IsDigits(segs[i])
    ensures ParseSegments(segs) == Some(Values(segs))
  {
    if segs != [] {
      DigitsNumber(segs[0]);
      ParseSegmentsOfDigits(segs[1..]);
    }
  }

  /** Digit segments joined by colons read as their combined seconds. */
  lemma ParseJoin(segs: seq<string>)
    requires |segs| >= 1
    requires forall i :: 0 <= i < |segs| ==> IsDigits(segs[i])
    ensures ParseTimePart(Join(segs, ':')) == Combine(Values(segs))
  {
    var t := Join(segs, ':');
    JoinDigits(segs);
    if t == [] {
      assert |segs| == 1 && segs[0] == [];
    } else {
      JoinTrimmed(t);
      forall i | 0 <= i < |segs| ensures ':' !in segs[i] {
        DigitsNoColon(segs[i]);
      }
      SplitOfJoin(segs, ':');
      ParseSegmentsOfDigits(segs);
      ParseSplitTrimmed(t, segs, Values(segs));
    }
  }

  lemma JoinTrimmed(t: string)
    requires t != [] && DigitsOrColons(t)
    ensures Trim(t) == t
  {
    assert IsDigit(t[0]) || t[0] == ':';
    assert IsDigit(t[|t| - 1]) || t[|t| - 1] == ':';
    TrimIdentity(t);
  }

  lemma ParseSplitTrimmed(t: string, segs: seq<string>, ns: seq<nat>)
    requires t != [] && Trim(t) == t && Split(t, ':') == segs
    requires ParseSegments(segs) == Some(ns)
    ensures ParseTimePart(t) == Combine(ns)
  {
  }

  lemma JoinCons(p: string, rest: seq<string>, sep: char)
    requires |rest| >= 1
    ensures Join([p] + rest, sep) == p + [sep] + Join(rest, sep)
  {
    assert ([p] + rest)[1..] == rest;
  }

  lemma JoinTwo(m: string, s: string)
    ensures Join([m, s], ':') == m + ":" + s
  {
    JoinCons(m, [s], ':');
    assert [m] + [s] == [m, s];
  }

  lemma JoinThree(h: string, m: string, s: string)
    ensures Join([h, m, s], ':') == h + ":" + m + ":" + s
  {
    JoinTwo(m, s);
    JoinCons(h, [m, s], ':');
    assert [h] + [m, s] == [h, m, s];
  }

  lemma JoinFour(a: string, b: string, c: string, d: string)
    ensures Join([a, b, c, d], ':') == a + ":" + b + ":" + c + ":" + d
  {
    JoinThree(b, c, d);
    JoinCons(a, [b, c, d], ':');
    assert [a] + [b, c, d] == [a, b, c, d];
  }

  /** With three segments of digits the part is h·3600 + m·60 + s. */
  lemma ParseThreeSegments(h: string, m: string, s: string)
    requires IsDigits(h) && IsDigits(m) && IsDigits(s)
    ensures ParseTimePart(h + ":" + m + ":" + s) ==
      DigitsValue(h) * 3600 + DigitsValue(m) * 60 + DigitsValue(s)
  {
    ParseJoin([h, m, s]);
    JoinThree(h, m, s);
  }

  /** With two segments of digits the part is m·60 + s. */
  lemma ParseTwoSegments(m: string, s: string)
    requires IsDigits(m) && IsDigits(s)
    ensures ParseTimePart(m + ":" + s) == DigitsValue(m) * 60 + DigitsValue(s)
  {
    ParseJoin([m, s]);
    JoinTwo(m, s);
  }

  /** A single segment of digits is read as its value. */
  lemma ParseOneSegment(s: string)
    requires IsDigits(s)
    ensures ParseTimePart(s) == DigitsValue(s)
  {
    assert Join([s], ':') == s;
    ParseJoin([s]);
  }

  lemma ParseJoinedFour(segs: seq<string>)
    requires |segs| == 4
    requires forall i :: 0 <= i < |segs| ==> IsDigits(segs[i])
    ensures ParseTimePart(Join(segs, ':')) == DigitsValue(segs[0])
  {
    ParseJoin(segs);
  }

  /** With four segments of digits only the first one counts. */
  lemma ParseFourSegments(a: string, b: string, c: string, d: string)
    requires IsDigits(a) && IsDigits(b) && IsDigits(c) && IsDigits(d)
    ensures ParseTimePart(a + ":" + b + ":" + c + ":" + d) == DigitsValue(a)
  {
    ParseJoinedFour([a, b, c, d]);
    JoinFour(a, b, c, d);
  }

  /** Blank text is 0 seconds. */
  lemma ParseBlank(value: string)
    requires AllSpace(value)
    ensures ParseTimePart(value) == 0
  {
    TrimStartShape(value);
  }

  /** Whatever trimming leaves came from the text. */
  lemma TrimKeepsOnlyText(s: string, c: char)
    requires c in Trim(s)
    ensures c in s
  {
    var t := TrimStart(s);
    TrimStartShape(s);
    TrimEndShape(t);
    var i :| 0 <= i < |Trim(s)| && Trim(s)[i] == c;
    assert TrimEnd(t)[i] == t[i];
    assert t[i] == s[|s| - |t| + i];
  }

  /** A character that is neither a digit, a colon nor white space makes the
      whole part 0. */
  lemma ParseNonNumeric(value: string, k: nat)
    requires k < |value|
    requires !IsDigit(value[k]) && value[k] != ':' && !IsSpace(value[k])
    ensures ParseTimePart(value) == 0
  {
    var clean := Trim(value);
    TrimKeeps(value, k);
    var j :| 0 <= j < |clean| && clean[j] == value[k];
    var segs := Split(clean, ':');
    SplitKeeps(clean, ':', j);
    var i :| 0 <= i < |segs| && value[k] in segs[i];
    var p :| 0 <= p < |segs[i]| && segs[i][p] == value[k];
    TrimKeeps(segs[i], p);
    var q :| 0 <= q < |Trim(segs[i])| && Trim(segs[i])[q] == value[k];
    assert !IsDigits(Trim(segs[i]));
    assert ToNumber(segs[i]).None?;
    ParseSegmentsNaN(segs, i);
  }

  /** One NaN segment makes the whole list NaN. */
  lemma {:induction false} ParseSegmentsNaN(segs: seq<string>, i: nat)
    requires i < |segs| && ToNumber(segs[i]).None?
    ensures ParseSegments(segs).None?
  {
    if i > 0 {
      ParseSegmentsNaN(segs[1..], i - 1);
    }
  }

  // ---------------------------------------------------------------------
  // parseProgress
  // ---------------------------------------------------------------------

  /** Without a '/' the whole text is the current position and the total is 0. */
  lemma ParseProgressNoSlash(text: string)
    requires '/' !in text
    ensures ParseProgress(text) == Progress(ParseTimePart(text), 0)
  {
    SplitNoSeparator(text, '/');
    assert Trim("") == "";
  }

  /** Only the first two '/'-separated pieces count. */
  lemma ParseProgressFirstTwo(a: string, b: string, rest: string)
    requires '/' !in a && '/' !in b
    ensures ParseProgress(a + "/" + b) == Progress(ParseTimePart(a), ParseTimePart(b))
    ensures ParseProgress(a + "/" + b + "/" + rest) == Progress(ParseTimePart(a), ParseTimePart(b))
  {
    SplitAtSeparator(a, '/', b);
    SplitNoSeparator(b, '/');
    assert a + "/" + b + "/" + rest == a + ['/'] + (b + ['/'] + rest);
    SplitAtSeparator(a, '/', b + ['/'] + rest);
    SplitAtSeparator(b, '/', rest);
  }

  // ---------------------------------------------------------------------
  // formatSeconds
  // ---------------------------------------------------------------------

  /** Negative and non-finite inputs print as "0:00". */
  lemma FormatSecondsClamps(x: real)
    requires x < 0.0
    ensures FormatSeconds(Some(x)) == "0:00"
    ensures FormatSeconds(None) == "0:00"
  {
    assert NatToString(0) == "0";
    assert Pad2(0) == "00";
  }

  /** Fractions are dropped: a finite non-negative input prints as its floor. */
  lemma FormatSecondsFloors(x: real)
    requires x >= 0.0
    ensures FormatSeconds(Some(x)) == FormatClock(x.Floor)
  {
  }

  lemma ColonCountDigits(s: string)
    requires IsDigits(s)
    ensures multiset(s)[':'] == 0
  {
    DigitsNoColon(s);
  }

  /** The shape of "H:MM:SS" over digit texts. */
  lemma HourClockShape(h: string, m: string, sec: string)
    requires IsDigits(h) && IsDigits(m) && IsDigits(sec) && h != [] && |m| == 2 && |sec| == 2
    ensures var r := h + ":" + m + ":" + sec;
      |r| >= 6 && r[|r| - 3] == ':' && r[|r| - 2..] == sec && multiset(r)[':'] == 2 &&
      r[|r| - 6] == ':' && r[|r| - 5..|r| - 3] == m
  {
    var r := h + ":" + m + ":" + sec;
    ColonCountDigits(h);
    ColonCountDigits(m);
    ColonCountDigits(sec);
    assert r[|r| - 2..] == sec;
    assert r[|r| - 5..|r| - 3] == m;
    assert multiset(r) == multiset(h) + multiset(":") + multiset(m) + multiset(":") + multiset(sec);
  }

  /** The shape of "M:SS" over digit texts. */
  lemma MinuteClockShape(m: string, sec: string)
    requires IsDigits(m) && IsDigits(sec) && m != [] && |sec| == 2
    ensures var r := m + ":" + sec;
      |r| >= 4 && r[|r| - 3] == ':' && r[|r| - 2..] == sec && multiset(r)[':'] == 1
  {
    var r := m + ":" + sec;
    ColonCountDigits(m);
    ColonCountDigits(sec);
    assert r[|r| - 2..] == sec;
    assert multiset(r) == multiset(m) + multiset(":") + multiset(sec);
  }

  /** "H:MM:SS" (two colons) exactly from one hour on, otherwise "M:SS"; the
      seconds are always the last two characters, after a colon, and in the
      hour form the minutes are the two characters before that colon. */
  lemma ClockShape(n: nat)
    ensures var r := FormatClock(n);
      |r| >= 4 && r[|r| - 3] == ':' && IsDigits(r[|r| - 2..]) &&
      DigitsValue(r[|r| - 2..]) == n % 60 &&
      (multiset(r)[':'] == 2 <==> n >= 3600) &&
      (multiset(r)[':'] == 1 <==> n < 3600)
    ensures var r := FormatClock(n);
      n >= 3600 ==> (|r| >= 6 && r[|r| - 6] == ':' && IsDigits(r[|r| - 5..|r| - 3]) &&
        DigitsValue(r[|r| - 5..|r| - 3]) == (n % 3600) / 60)
  {
    var r := FormatClock(n);
    var sec := Pad2(n % 60);
    assert n >= 3600 <==> n / 3600 > 0;
    if n / 3600 > 0 {
      var minutes := Pad2((n % 3600) / 60);
      HourClockShape(NatToString(n / 3600), minutes, sec);
      assert r == NatToString(n / 3600) + ":" + minutes + ":" + sec;
      assert r[|r| - 5..|r| - 3] == minutes;
    } else {
      MinuteClockShape(NatToString((n % 3600) / 60), sec);
    }
  }

  /** Minutes are zero-padded only in the hour form: the text starts with
      '0' exactly when there is less than a minute. */
  lemma ClockLeadingZero(n: nat)
    ensures FormatClock(n)[0] == '0' <==> n < 60
  {
    if n / 3600 > 0 {
      NatToStringLeadingDigit(n / 3600);
    } else {
      NatToStringLeadingDigit((n % 3600) / 60);
    }
  }

  // ---------------------------------------------------------------------
  // The round trip between formatSeconds and parseTimePart
  // ---------------------------------------------------------------------

  lemma ClockArithmetic(n: nat)
    ensures (n / 3600) * 3600 + ((n % 3600) / 60) * 60 + n % 60 == n
    ensures n < 3600 ==> ((n % 3600) / 60) * 60 + n % 60 == n
  {
    var r := n % 3600;
    assert n == (n / 3600) * 3600 + r;
    assert r == (r / 60) * 60 + r % 60;
    assert r % 60 == n % 60 by {
      assert n == ((n / 3600) * 60) * 60 + r;
    }
  }

  /** Reading the clock text back gives the number of seconds. */
  lemma {:induction false} ParseFormatClock(n: nat)
    ensures ParseTimePart(FormatClock(n)) == n
  {
    var m := Pad2((n % 3600) / 60);
    var s := Pad2(n % 60);
    ClockArithmetic(n);
    if n / 3600 > 0 {
      var h := NatToString(n / 3600);
      DigitsOfNat(n / 3600);
      ParseThreeSegments(h, m, s);
    } else {
      var mm := NatToString((n % 3600) / 60);
      DigitsOfNat((n % 3600) / 60);
      ParseTwoSegments(mm, s);
    }
  }

  /** For every n >= 0, `parseTimePart(formatSeconds(n)) == n`. */
  lemma ParseFormatSeconds(n: int)
    requires n >= 0
    ensures ParseTimePart(FormatInt(n)) == n
  {
    ParseFormatClock(n);
  }

  lemma ClockEnds(n: nat)
    ensures var r := FormatClock(n);
      r != [] && IsDigit(r[0]) && IsDigit(r[|r| - 1]) && '/' !in r
  {
    var r := FormatClock(n);
    var s := Pad2(n % 60);
    var m := Pad2((n % 3600) / 60);
    DigitsNoColon(s);
    DigitsNoColon(m);
    if n / 3600 > 0 {
      var h := NatToString(n / 3600);
      DigitsNoColon(h);
      assert r == h + ":" + m + ":" + s;
      assert r[0] == h[0];
    } else {
      var mm := NatToString((n % 3600) / 60);
      DigitsNoColon(mm);
      assert r == mm + ":" + s;
      assert r[0] == mm[0];
    }
    assert r[|r| - 1] == s[|s| - 1];
  }

  /** The part only depends on its trimmed text. */
  lemma ParseTimePartTrimmed(v: string, w: string)
    requires Trim(v) == Trim(w)
    ensures ParseTimePart(v) == ParseTimePart(w)
  {
  }

  /** Clock text with white space around it still reads as its seconds. */
  lemma ParsePaddedClock(n: nat, pre: string, post: string)
    requires AllSpace(pre) && AllSpace(post)
    ensures ParseTimePart(pre + FormatClock(n) + post) == n
  {
    var x := FormatClock(n);
    ClockEnds(n);
    TrimPadded(pre, x, post);
    TrimIdentity(x);
    ParseTimePartTrimmed(pre + x + post, x);
    ParseFormatClock(n);
  }

  /** "x / y" is read as the part before the slash and the part after it,
      spaces included. */
  lemma ParseSpacedSlash(x: string, y: string)
    requires '/' !in x && '/' !in y
    ensures ParseProgress(x + " / " + y) == Progress(ParseTimePart(x + " "), ParseTimePart(" " + y))
  {
    assert x + " / " + y == (x + " ") + "/" + (" " + y);
    ParseProgressFirstTwo(x + " ", " " + y, "");
  }

  /** The clock text followed by one space, or preceded by one, parses back. */
  lemma ParseClockSpaced(n: nat)
    ensures ParseTimePart(FormatClock(n) + " ") == n
    ensures ParseTimePart(" " + FormatClock(n)) == n
  {
    var x := FormatClock(n);
    ParsePaddedClock(n, [], " ");
    assert [] + x + " " == x + " ";
    ParsePaddedClock(n, " ", []);
    assert " " + x + [] == " " + x;
  }

  /** The session's "a / b" time label parses back to (a, b). */
  lemma ParseProgressOfLabel(a: nat, b: nat)
    ensures ParseProgress(FormatClock(a) + " / " + FormatClock(b)) == Progress(a, b)
  {
    ClockEnds(a);
    ClockEnds(b);
    ParseSpacedSlash(FormatClock(a), FormatClock(b));
    ParseClockSpaced(a);
    ParseClockSpaced(b);
  }
}
