/** A scan log whose last line may have been torn by a crash, again and again: what every
    byte a writer puts down, or fails to, does to the entries that can be read back
    (auto-optimizer/src/scan_log.rs). */
module TornLog {
  import opened Options
  import opened ScanLogFile

  // ---------------------------------------------------------- closed lines and a tail

  /** Where the last line begins that no newline closes. */
  function TailStart(f: seq<byte>): (n: nat)
    ensures n <= |f| && EndsLine(f[..n]) && NEWLINE !in f[n..]
  {
    if f == [] || f[|f| - 1] == NEWLINE then |f|
    else
      var n := TailStart(f[..|f| - 1]);
      assert f[..|f| - 1][..n] == f[..n] && f[n..] == f[..|f| - 1][n..] + [f[|f| - 1]];
      n
  }

  function Body(f: seq<byte>): seq<byte> { f[..TailStart(f)] }
  function Tail(f: seq<byte>): seq<byte> { f[TailStart(f)..] }

  lemma BodyAndTail(f: seq<byte>)
    ensures f == Body(f) + Tail(f) && EndsLine(Body(f)) && NEWLINE !in Tail(f)
  {
  }

  lemma SplitIs(body: seq<byte>, tail: seq<byte>)
    requires EndsLine(body) && NEWLINE !in tail
    ensures Body(body + tail) == body && Tail(body + tail) == tail
  {
    TailStartIs(body, tail);
  }

  lemma {:induction false} TailStartIs(body: seq<byte>, tail: seq<byte>)
    requires EndsLine(body) && NEWLINE !in tail
    ensures TailStart(body + tail) == |body|
    decreases |tail|
  {
    if tail == [] {
      assert body + tail == body;
    } else {
      assert (body + tail)[..|body + tail| - 1] == body + tail[..|tail| - 1];
      TailStartIs(body, tail[..|tail| - 1]);
    }
  }

  /** A line that reads the same whether or not it is the last one. */
  ghost predicate Settled<E>(k: Codec<E>, line: seq<byte>) {
    EntryOfLine(k, line, true) == EntryOfLine(k, line, false)
  }

  ghost predicate AllSettled<E>(k: Codec<E>, lines: seq<seq<byte>>) {
    forall i {:trigger Settled(k, lines[i])} :: 0 <= i < |lines| ==> Settled(k, lines[i])
  }

  function Entries<E>(k: Codec<E>, lines: seq<seq<byte>>): seq<E> {
    if lines == [] then [] else ToSeq(EntryOfLine(k, lines[0], false)) + Entries(k, lines[1..])
  }

  lemma {:induction false} EntriesConcat<E>(k: Codec<E>, ls: seq<seq<byte>>, ms: seq<seq<byte>>)
    ensures Entries(k, ls + ms) == Entries(k, ls) + Entries(k, ms)
  {
    if ls == [] {
      assert ls + ms == ms;
    } else {
      assert (ls + ms)[1..] == ls[1..] + ms;
      EntriesConcat(k, ls[1..], ms);
    }
  }

  lemma {:induction false} ParseSettled<E>(k: Codec<E>, ls: seq<seq<byte>>, ms: seq<seq<byte>>)
    requires AllSettled(k, ls)
    ensures Parse(k, ls + ms) == Entries(k, ls) + Parse(k, ms)
  {
    if ls == [] {
      assert ls + ms == ms;
    } else {
      assert (ls + ms)[1..] == ls[1..] + ms && (ls + ms)[0] == ls[0];
      assert Settled(k, ls[0]);
      ParseSettled(k, ls[1..], ms);
    }
  }

  // --------------------------------------------------------------------- torn tails

  /** A tail from which nothing but entries in `P` can be recovered, however it is cut. */
  ghost predicate Yields<E(!new)>(k: Codec<E>, t: seq<byte>, P: E -> bool) {
    && NEWLINE !in t && (t != [] ==> !IsSpace(t[0]))
    && forall n: nat :: 1 <= n <= |t| ==> YieldsAt(k, t, P, n)
  }

  ghost predicate YieldsAt<E>(k: Codec<E>, t: seq<byte>, P: E -> bool, n: nat)
    requires n <= |t|
  {
    k.dec(t[..n]).Entry? ==> P(k.dec(t[..n]).value)
  }

  lemma {:induction false} TrimEndIsPrefix(s: seq<byte>) returns (n: nat)
    requires s != [] && !IsSpace(s[0])
    ensures 1 <= n <= |s| && TrimEnd(s) == s[..n]
  {
    n := |s|;
    if IsSpace(s[|s| - 1]) {
      n := TrimEndIsPrefix(s[..|s| - 1]);
      assert s[..|s| - 1][..n] == s[..n];
    }
  }

  lemma {:induction false} UpToBraceIsPrefix(s: seq<byte>) returns (n: nat)
    requires UpToBrace(s).Some?
    ensures 1 <= n <= |s| && UpToBrace(s).value == s[..n]
  {
    n := |s|;
    if s[|s| - 1] != BRACE {
      n := UpToBraceIsPrefix(s[..|s| - 1]);
      assert s[..|s| - 1][..n] == s[..n];
    }
  }

  lemma TailEntry<E(!new)>(k: Codec<E>, t: seq<byte>, P: E -> bool, last: bool)
    requires Yields(k, t, P)
    ensures EntryOfLine(k, t, last).Some? ==> P(EntryOfLine(k, t, last).value)
  {
    if t != [] {
      var n := TrimEndIsPrefix(t);
      assert YieldsAt(k, t, P, n);
      if UpToBrace(t[..n]).Some? {
        var m := UpToBraceIsPrefix(t[..n]);
        assert t[..n][..m] == t[..m];
        assert YieldsAt(k, t, P, m);
      }
    }
  }

  /** Writing on from a torn tail makes nothing readable; from a clean end, at most the record
      itself. */
  lemma TailGrows<E(!new)>(k: Codec<E>, t: seq<byte>, P: E -> bool, e: E, m: nat)
    requires Lawful(k) && Framed(k) && Yields(k, t, P) && P(e) && m <= |k.enc(e)|
    ensures Yields(k, t + k.enc(e)[..m], P)
  {
    assert LawfulFor(k, e);
    var x := k.enc(e)[..m];
    forall n: nat | 1 <= n <= |t + x| ensures YieldsAt(k, t + x, P, n) {
      if n <= |t| {
        assert (t + x)[..n] == t[..n];
        assert YieldsAt(k, t, P, n);
      } else {
        assert (t + x)[..n] == t + k.enc(e)[..n - |t|];
        GrownTail(k, t, e, n - |t|);
      }
    }
  }

  lemma GrownTail<E(!new)>(k: Codec<E>, t: seq<byte>, e: E, m: nat)
    requires Lawful(k) && Framed(k) && NEWLINE !in t && (t != [] ==> !IsSpace(t[0])) && 1 <= m <= |k.enc(e)|
    ensures k.dec(t + k.enc(e)[..m]).Entry? ==> t == [] && k.dec(t + k.enc(e)[..m]) == Entry(e)
  {
    assert LawfulFor(k, e) && FramedAt(k, e, t, m);
    var s := t + k.enc(e)[..m];
    assert !IsSpace(s[0]) && TrimStart(s) == s;
    if t == [] && m == |k.enc(e)| { assert s == k.enc(e); }
  }

  // ------------------------------------------------------------------ readable files

  /** The entries of the closed lines. */
  function LogOf<E>(k: Codec<E>, file: seq<byte>): seq<E> { Entries(k, Lines(Body(file))) }

  /** The closed lines are settled, and the tail can only give an entry in `P`. */
  ghost predicate Readable<E(!new)>(k: Codec<E>, file: seq<byte>, P: E -> bool) {
    AllSettled(k, Lines(Body(file))) && Yields(k, Tail(file), P)
  }

  /** What is read back: the closed lines' entries, and perhaps one more from the tail. */
  lemma LoadReadable<E(!new)>(k: Codec<E>, file: seq<byte>, P: E -> bool) returns (o: Option<E>)
    requires Readable(k, file, P)
    ensures Load(k, file) == LogOf(k, file) + ToSeq(o)
    ensures o.Some? ==> P(o.value)
    ensures Tail(file) == [] ==> o == None
  {
    BodyAndTail(file);
    LinesConcat(Body(file), Tail(file));
    ParseSettled(k, Lines(Body(file)), Lines(Tail(file)));
    o := None;
    if Tail(file) != [] {
      SingleLine(Tail(file));
      o := EntryOfLine(k, Tail(file), true);
      TailEntry(k, Tail(file), P, true);
      assert [Tail(file)][1..] == [];
      assert Parse(k, [Tail(file)]) == ToSeq(o) + [];
    }
  }

  /** A crash inside an append. */
  lemma AppendTorn<E(!new)>(k: Codec<E>, file: seq<byte>, P: E -> bool, e: E, n: nat)
    requires Lawful(k) && Framed(k) && Readable(k, file, P) && P(e) && n <= |k.enc(e)|
    ensures Readable(k, file + k.enc(e)[..n], P) && LogOf(k, file + k.enc(e)[..n]) == LogOf(k, file)
  {
    BodyAndTail(file);
    assert LawfulFor(k, e);
    TailGrows(k, Tail(file), P, e, n);
    assert file + k.enc(e)[..n] == Body(file) + (Tail(file) + k.enc(e)[..n]);
    SplitIs(Body(file), Tail(file) + k.enc(e)[..n]);
  }

  /** One more closed line. */
  lemma LinesOfClosed(body: seq<byte>, line: seq<byte>)
    requires EndsLine(body) && NEWLINE !in line && line != []
    ensures var f := body + (line + [NEWLINE]);
      Body(body) == body && Body(f) == f && Tail(f) == [] && Lines(f) == Lines(body) + [line]
  {
    var f := body + (line + [NEWLINE]);
    SplitIs(f, []);
    SplitIs(body, []);
    assert f + [] == f && body + [] == body;
    SingleLine(line);
    LinesConcat(body, line + [NEWLINE]);
  }

  lemma ClosedLine<E(!new)>(k: Codec<E>, body: seq<byte>, line: seq<byte>, P: E -> bool)
    requires EndsLine(body) && AllSettled(k, Lines(body))
    requires NEWLINE !in line && line != [] && Settled(k, line)
    ensures var f := body + (line + [NEWLINE]);
      && Body(f) == f && Tail(f) == [] && Readable(k, f, P)
      && LogOf(k, f) == LogOf(k, body) + ToSeq(EntryOfLine(k, line, false))
  {
    LinesOfClosed(body, line);
    EntriesConcat(k, Lines(body), [line]);
    EntriesOfOne(k, line);
  }

  lemma EntriesOfOne<E>(k: Codec<E>, line: seq<byte>)
    ensures Entries(k, [line]) == ToSeq(EntryOfLine(k, line, false))
  {
    assert [line][1..] == [];
    assert Entries(k, [line]) == ToSeq(EntryOfLine(k, line, false)) + [];
  }

  /** A whole append: the record is read back from a clean end and lost behind a torn one. */
  lemma AppendWhole<E(!new)>(k: Codec<E>, file: seq<byte>, P: E -> bool, Q: E -> bool, e: E)
    requires Lawful(k) && Framed(k) && Readable(k, file, P)
    ensures var f := file + Record(k, e);
      && Readable(k, f, Q) && Tail(f) == [] && Body(f) == f
      && LogOf(k, f) == if Tail(file) == [] then LogOf(k, file) + [e] else LogOf(k, file)
  {
    BodyAndTail(file);
    var body, tail := Body(file), Tail(file);
    LineBehindTail(k, tail, P, e);
    assert file + Record(k, e) == body + (tail + k.enc(e) + [NEWLINE]);
    ClosedLine(k, body, tail + k.enc(e), Q);
    SplitIs(body, []);
    assert body + [] == body;
    assert LogOf(k, body) == LogOf(k, file);
  }

  lemma LineBehindTail<E(!new)>(k: Codec<E>, tail: seq<byte>, P: E -> bool, e: E)
    requires Lawful(k) && Framed(k) && Yields(k, tail, P)
    ensures var line := tail + k.enc(e);
      && NEWLINE !in line && line != [] && Settled(k, line)
      && EntryOfLine(k, line, false) == if tail == [] then Some(e) else None
  {
    assert LawfulFor(k, e);
    JoinedLine(k, tail, e, true);
    JoinedLine(k, tail, e, false);
    assert AllBlank(tail) <==> tail == [];
  }

  // ------------------------------------------------------------------- torn overwrites

  /** Of a record half written over its pending form only one of the two can be read. */
  ghost predicate Overlaid<E>(k: Codec<E>, pending: E, completed: E) {
    && |k.enc(pending)| <= |k.enc(completed)|
    && forall n: nat :: 1 <= n < |k.enc(pending)| ==> OverlaidAt(k, pending, completed, n)
  }

  ghost predicate OverlaidAt<E>(k: Codec<E>, pending: E, completed: E, n: nat)
    requires n <= |k.enc(pending)| <= |k.enc(completed)|
  {
    var d := k.dec(k.enc(completed)[..n] + k.enc(pending)[n..]);
    d.Entry? ==> d.value == pending || d.value == completed
  }

  /** The first `n` bytes of the completion over the pending line, short of its newline. */
  lemma HalfOverwritten<E(!new)>(k: Codec<E>, a: seq<byte>, P: E -> bool, pending: E, completed: E, n: nat)
    requires Lawful(k) && Overlaid(k, pending, completed)
    requires Readable(k, a, P) && Tail(a) == [] && 1 <= n < |k.enc(pending)|
    ensures var f := a + (k.enc(completed)[..n] + k.enc(pending)[n..]) + [NEWLINE];
      && Readable(k, f, P)
      && Overwritten(LogOf(k, f), LogOf(k, a), pending, completed)
  {
    BodyAndTail(a);
    assert LawfulFor(k, pending) && LawfulFor(k, completed) && OverlaidAt(k, pending, completed, n);
    var line := k.enc(completed)[..n] + k.enc(pending)[n..];
    assert line[0] == k.enc(completed)[0] && line[|line| - 1] == BRACE;
    assert TrimStart(line) == line;
    LineToBrace(k, line, true);
    LineToBrace(k, line, false);
    assert a + line + [NEWLINE] == a + (line + [NEWLINE]);
    assert Body(a) == a;
    ClosedLine(k, a, line, P);
  }

  /** Exactly as many bytes as the pending record had: its newline closes the line. */
  lemma JustOverwritten<E(!new)>(k: Codec<E>, a: seq<byte>, P: E -> bool, completed: E, n: nat)
    requires Lawful(k) && Framed(k) && Readable(k, a, P) && Tail(a) == [] && 1 <= n <= |k.enc(completed)|
    ensures var f := a + k.enc(completed)[..n] + [NEWLINE];
      Readable(k, f, P) && (LogOf(k, f) == LogOf(k, a) || LogOf(k, f) == LogOf(k, a) + [completed])
  {
    BodyAndTail(a);
    assert LawfulFor(k, completed);
    var line := k.enc(completed)[..n];
    if n == |k.enc(completed)| {
      assert line == k.enc(completed);
      RecordIsSolid(k, completed, true);
      RecordIsSolid(k, completed, false);
    } else {
      var none: E -> bool := (e: E) => false;
      forall m: nat | 1 <= m <= |line| ensures YieldsAt(k, line, none, m) {
        assert line[..m] == [] + k.enc(completed)[..m];
        assert FramedAt(k, completed, [], m);
        GrownTail(k, [], completed, m);
        assert TrimStart([] + k.enc(completed)[..m]) == k.enc(completed)[..m];
      }
      TailEntry(k, line, none, true);
      TailEntry(k, line, none, false);
    }
    assert a + line + [NEWLINE] == a + (line + [NEWLINE]);
    assert Body(a) == a;
    ClosedLine(k, a, line, P);
  }

  /** A crash after any `n` bytes of overwriting the last record with its completion: the
      test may be unfinished, finished or gone, and the entries before it are safe. */
  lemma OverwriteTorn<E(!new)>(k: Codec<E>, a: seq<byte>, P: E -> bool, pending: E, completed: E, n: nat)
    requires Lawful(k) && Framed(k) && Overlaid(k, pending, completed)
    requires Readable(k, a, P) && Tail(a) == [] && P(completed) && 1 <= n <= |k.enc(completed)|
    ensures var f := Splice(a + Record(k, pending), |a|, Record(k, completed)[..n]);
      Readable(k, f, P) && Overwritten(LogOf(k, f), LogOf(k, a), pending, completed)
  {
    assert Record(k, completed)[..n] == k.enc(completed)[..n];
    SpliceShape(a, k.enc(pending), k.enc(completed), n);
    if n < |k.enc(pending)| {
      HalfOverwritten(k, a, P, pending, completed, n);
    } else if n == |k.enc(pending)| {
      JustOverwritten(k, a, P, completed, n);
    } else {
      AppendTorn(k, a, P, completed, n);
    }
  }

  ghost predicate Overwritten<E>(log: seq<E>, before: seq<E>, pending: E, completed: E) {
    log == before || log == before + [pending] || log == before + [completed]
  }
}
