/** A record text that keeps every law the log proofs ask of the real one: numbers as strokes
    and commas between two braces, the result last.  So the laws do not contradict each other. */
module PlainCodec {
  import opened Options
  import opened Resume
  import opened ScanLogFile
  import opened TornLog
  import TornScan

  const OPEN: byte := 123
  const STROKE: byte := 49
  const COMMA: byte := 44

  function Strokes(n: nat): (s: seq<byte>)
    ensures |s| == n && forall i :: 0 <= i < n ==> s[i] == STROKE
  {
    if n == 0 then [] else [STROKE] + Strokes(n - 1)
  }

  predicate Inside(s: seq<byte>) { forall i :: 0 <= i < |s| ==> s[i] == STROKE || s[i] == COMMA }

  function Text(ns: seq<nat>): (s: seq<byte>)
    ensures Inside(s)
  {
    if ns == [] then [] else Strokes(ns[0]) + [COMMA] + Text(ns[1..])
  }

  lemma FirstComma(a: seq<nat>)
    ensures a != [] ==> a[0] < |Text(a)| && Text(a)[a[0]] == COMMA && forall i :: 0 <= i < a[0] ==> Text(a)[i] == STROKE
  {
  }

  lemma {:induction false} TextIsInjective(a: seq<nat>, b: seq<nat>)
    requires Text(a) == Text(b)
    ensures a == b
  {
    FirstComma(a);
    FirstComma(b);
    if a != [] && b != [] {
      assert Text(a)[a[0] + 1..] == Text(a[1..]) && Text(b)[b[0] + 1..] == Text(b[1..]);
      TextIsInjective(a[1..], b[1..]);
    }
  }

  lemma {:induction false} TextConcat(a: seq<nat>, b: seq<nat>)
    ensures Text(a + b) == Text(a) + Text(b)
  {
    if a == [] {
      assert a + b == b;
    } else {
      assert (a + b)[1..] == a[1..] + b;
      TextConcat(a[1..], b);
    }
  }

  function OfInt(x: int): seq<nat> { if x >= 0 then [0, x] else [1, -x] }

  function OfDomain(d: Domain): nat { match d case Core => 0 case Memory => 1 case Legacy => 2 }

  function OfMode(m: Mode): nat { match m case NormalMode => 0 case UltrafastMode => 1 case LegacyMode => 2 }

  /** An event as numbers; a result comes last. */
  function Numbers(e: Event): seq<nat> {
    match e
    case VoltageRange(lower, upper) => [0, lower, upper]
    case ScanMode(mode) => [1, OfMode(mode)]
    case KeyPoints(points) => [2] + points
    case TestResult(domain, phase, code, at, delta, result) =>
      [3, OfDomain(domain), if phase == Short then 0 else 1, code, at] + OfInt(delta)
      + (if result.None? then [] else OfInt(result.value))
    case PointFinished(domain, at) => [4, OfDomain(domain), at]
    case ScanCompleted => [5]
  }

  lemma NumbersAreInjective(a: Event, b: Event)
    requires Numbers(a) == Numbers(b)
    ensures a == b
  {
    var m, n := Numbers(a), Numbers(b);
    assert m[0] == n[0];
    match a {
      case KeyPoints(points) =>
        assert m[1..] == points && n[1..] == b.points;
      case TestResult(_, _, _, _, _, _) =>
        assert |m| == |n| && m[1] == n[1] && m[2] == n[2] && m[3] == n[3];
        assert m[4] == n[4] && m[5] == n[5] && m[6] == n[6];
        assert a.resultCode.Some? ==> m[7] == n[7] && m[8] == n[8];
      case VoltageRange(_, _) => assert m[1] == n[1] && m[2] == n[2];
      case ScanMode(_) => assert m[1] == n[1];
      case PointFinished(_, _) => assert m[1] == n[1] && m[2] == n[2];
      case ScanCompleted =>
    }
  }

  function Encoded(e: Event): seq<byte> { [OPEN] + Text(Numbers(e)) + [BRACE] }

  ghost function Decoded(s: seq<byte>): Parsed<Event> {
    if exists e :: Encoded(e) == s then
      var e :| Encoded(e) == s;
      Entry(e)
    else Malformed
  }

  lemma DecodesEncoded(e: Event)
    ensures Decoded(Encoded(e)) == Entry(e)
  {
    var d := Decoded(Encoded(e)).value;
    assert Encoded(d) == Encoded(e);
    assert Text(Numbers(d)) == Encoded(d)[1..|Encoded(d)| - 1] == Text(Numbers(e));
    TextIsInjective(Numbers(d), Numbers(e));
    NumbersAreInjective(d, e);
  }

  /** A record opens once, at its beginning, and closes once, at its end. */
  predicate Braced(s: seq<byte>) {
    |s| >= 2 && s[0] == OPEN && s[|s| - 1] == BRACE && Inside(s[1..|s| - 1])
  }

  lemma EncodedIsBraced(e: Event)
    ensures Braced(Encoded(e)) && Encoded(e)[1..|Encoded(e)| - 1] == Text(Numbers(e))
  {
  }

  lemma BracedOpensOnce(s: seq<byte>)
    ensures Braced(s) ==> forall i :: 0 < i < |s| ==> s[i] != OPEN
  {
    if Braced(s) {
      forall i | 0 < i < |s| ensures s[i] != OPEN {
        assert i < |s| - 1 ==> s[i] == s[1..|s| - 1][i - 1];
      }
    }
  }

  lemma BracedIsFramed(e: Event, before: seq<byte>, m: nat)
    requires 1 <= m <= |Encoded(e)| && (!AllBlank(before) || m < |Encoded(e)|)
    ensures !Braced(TrimStart(before + Encoded(e)[..m]))
  {
    var x := Encoded(e)[..m];
    EncodedIsBraced(e);
    if AllBlank(before) {
      TrimStartDrops(before, x);
      assert m > 1 ==> x[m - 1] == Text(Numbers(e))[m - 2];
    } else {
      TrimStartKeeps(before, x);
      var s := TrimStart(before + x);
      assert s[|s| - m] == s[|s| - m..][0] == x[0] == OPEN;
      BracedOpensOnce(s);
    }
  }

  lemma {:induction false} TrimStartKeeps(before: seq<byte>, x: seq<byte>)
    requires !AllBlank(before)
    ensures var s := TrimStart(before + x); |s| > |x| && s[|s| - |x|..] == x
  {
    if before != [] && IsSpace(before[0]) {
      assert (before + x)[1..] == before[1..] + x;
      TrimStartKeeps(before[1..], x);
    } else {
      assert (before + x)[|before|..] == x;
    }
  }

  /** Half a result over its pending form is the pending form: only the end differs. */
  lemma ResultComesLast(e: Event, result: int, n: nat)
    requires e.TestResult? && e.resultCode.None? && n < |Encoded(e)|
    ensures var c := Encoded(e.(resultCode := Some(result))); n <= |c| && c[..n] == Encoded(e)[..n]
    ensures |Encoded(e)| <= |Encoded(e.(resultCode := Some(result)))|
  {
    var c := e.(resultCode := Some(result));
    assert Numbers(c) == Numbers(e) + OfInt(result);
    TextConcat(Numbers(e), OfInt(result));
    assert Encoded(c) == [OPEN] + Text(Numbers(e)) + (Text(OfInt(result)) + [BRACE]);
  }

  ghost function Plain(): Codec<Event> {
    var enc: Event -> seq<byte> := e => Encoded(e);
    var dec: seq<byte> -> Parsed<Event> := s => Decoded(s);
    Codec(enc, dec)
  }

  lemma OnlyBracedDecode(s: seq<byte>)
    ensures Decoded(s).Entry? ==> Braced(s)
  {
    if e :| Encoded(e) == s { EncodedIsBraced(e); }
  }

  lemma PlainIsLawful(e: Event)
    ensures LawfulFor(Plain(), e)
  {
    DecodesEncoded(e);
    EncodedIsBraced(e);
    assert Encoded(e)[1..|Encoded(e)| - 1] == Text(Numbers(e));
    assert Plain().enc(e) == Encoded(e) && Plain().dec(Encoded(e)) == Decoded(Encoded(e));
  }

  lemma PlainIsFramed(e: Event, before: seq<byte>, m: nat)
    ensures FramedAt(Plain(), e, before, m)
  {
    assert Plain().enc(e) == Encoded(e);
    if 1 <= m <= |Encoded(e)| && (!AllBlank(before) || m < |Encoded(e)|) {
      BracedIsFramed(e, before, m);
      OnlyBracedDecode(TrimStart(before + Encoded(e)[..m]));
    }
  }

  lemma PlainIsOverlaid(e: Event, result: int)
    ensures TornScan.ResultOverlaid(Plain(), e, result)
  {
    if e.TestResult? && e.resultCode.None? {
      var c := e.(resultCode := Some(result));
      assert Plain().enc(e) == Encoded(e) && Plain().enc(c) == Encoded(c);
      ResultComesLast(e, result, 0);
      forall n: nat | 1 <= n < |Encoded(e)| ensures OverlaidAt(Plain(), e, c, n) {
        HalfIsPending(e, result, n);
      }
    }
  }

  lemma HalfIsPending(e: Event, result: int, n: nat)
    requires e.TestResult? && e.resultCode.None? && 1 <= n < |Encoded(e)|
    ensures var c := Encoded(e.(resultCode := Some(result)));
      n <= |c| && Decoded(c[..n] + Encoded(e)[n..]) == Entry(e)
  {
    ResultComesLast(e, result, n);
    assert Encoded(e)[..n] + Encoded(e)[n..] == Encoded(e);
    DecodesEncoded(e);
  }

  /** The laws can be kept all at once. */
  lemma LawsCanBeKept()
    ensures TornScan.Laws(Plain())
  {
    forall e ensures LawfulFor(Plain(), e) { PlainIsLawful(e); }
    forall e, before, m: nat ensures FramedAt(Plain(), e, before, m) { PlainIsFramed(e, before, m); }
    forall e: Event, result: int ensures TornScan.ResultOverlaid(Plain(), e, result) { PlainIsOverlaid(e, result); }
  }
}
