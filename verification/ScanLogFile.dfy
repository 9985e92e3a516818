/** The scan log as a file: the writer that appends records and overwrites a pending one
    byte by byte, and the reader that survives a torn last line
    (auto-optimizer/src/scan_log.rs).  JSON itself is an abstract codec. */
module ScanLogFile {
  import opened Options

  const NEWLINE: byte := 10
  const BRACE: byte := 125

  /** What parsing a line gives: an entry, a record of another schema version, or an error. */
  datatype Parsed<+E> = Entry(value: E) | Unsupported | Malformed

  datatype Codec<!E> = Codec(enc: E -> seq<byte>, dec: seq<byte> -> Parsed<E>)

  predicate IsSpace(b: byte) { b == 32 || 9 <= b <= 13 }

  /** The record of `e` is one line that starts with no blank, ends in a brace and decodes. */
  ghost predicate Lawful<E(!new)>(k: Codec<E>) {
    forall e :: LawfulFor(k, e)
  }

  predicate LawfulFor<E(==)>(k: Codec<E>, e: E) {
    var bs := k.enc(e);
    && bs != [] && NEWLINE !in bs && !IsSpace(bs[0]) && bs[|bs| - 1] == BRACE
    && k.dec(bs) == Entry(e)
  }

  // ------------------------------------------------------------------ the reader

  function LineLength(f: seq<byte>): (n: nat)
    ensures n <= |f| && (forall i :: 0 <= i < n ==> f[i] != NEWLINE) && (n < |f| ==> f[n] == NEWLINE)
  {
    if f == [] || f[0] == NEWLINE then 0 else LineLength(f[1..]) + 1
  }

  /** The lines of a file; a final newline starts no further line. */
  function Lines(f: seq<byte>): seq<seq<byte>> {
    if f == [] then []
    else
      var n := LineLength(f);
      [f[..n]] + (if n < |f| then Lines(f[n + 1..]) else [])
  }

  function TrimStart(s: seq<byte>): seq<byte> {
    if s != [] && IsSpace(s[0]) then TrimStart(s[1..]) else s
  }

  function TrimEnd(s: seq<byte>): seq<byte> {
    if s != [] && IsSpace(s[|s| - 1]) then TrimEnd(s[..|s| - 1]) else s
  }

  function Trim(s: seq<byte>): seq<byte> { TrimEnd(TrimStart(s)) }

  /** The text up to and including the last brace. */
  function UpToBrace(s: seq<byte>): Option<seq<byte>> {
    if s == [] then None
    else if s[|s| - 1] == BRACE then Some(s)
    else UpToBrace(s[..|s| - 1])
  }

  /** What one line contributes; only the last non-blank line gets a second chance. */
  function EntryOfLine<E>(k: Codec<E>, line: seq<byte>, last: bool): Option<E> {
    var raw := Trim(line);
    if raw == [] then None
    else match k.dec(raw)
      case Entry(e) => Some(e)
      case Unsupported => None
      case Malformed =>
        if !last then None
        else match UpToBrace(raw)
          case None => None
          case Some(s) => (match k.dec(s) case Entry(e) => Some(e) case _ => None)
  }

  predicate Blank(line: seq<byte>) { Trim(line) == [] }

  function ToSeq<E>(o: Option<E>): seq<E> {
    match o case None => [] case Some(e) => [e]
  }

  /** The entries read from `lines`. */
  function Parse<E>(k: Codec<E>, lines: seq<seq<byte>>): seq<E> {
    if lines == [] then []
    else
      var last := forall l :: l in lines[1..] ==> Blank(l);
      ToSeq(EntryOfLine(k, lines[0], last)) + Parse(k, lines[1..])
  }

  function Load<E>(k: Codec<E>, file: seq<byte>): seq<E> {
    Parse(k, Lines(file))
  }

  predicate LineHasError<E>(k: Codec<E>, line: seq<byte>) {
    !Blank(line) && !k.dec(Trim(line)).Entry?
  }

  /** `n` is one past the last non-blank line. */
  ghost predicate BlankFrom(lines: seq<seq<byte>>, n: nat) {
    && n <= |lines|
    && (forall j :: n <= j < |lines| ==> Blank(lines[j]))
    && (n > 0 ==> !Blank(lines[n - 1]))
  }

  lemma IsLastLine(lines: seq<seq<byte>>, n: nat, i: nat)
    requires BlankFrom(lines, n) && i < |lines| && !Blank(lines[i])
    ensures (forall l :: l in lines[i + 1..] ==> Blank(l)) <==> i == n - 1
  {
    if i < n - 1 {
      assert lines[i + 1..][n - 1 - (i + 1)] == lines[n - 1];
    }
  }

  lemma ParseNext<E>(k: Codec<E>, lines: seq<seq<byte>>, n: nat, i: nat, before: seq<E>)
    requires BlankFrom(lines, n) && i < |lines|
    ensures before + Parse(k, lines[i..])
         == before + ToSeq(EntryOfLine(k, lines[i], i == n - 1)) + Parse(k, lines[i + 1..])
  {
    assert lines[i..][0] == lines[i] && lines[i..][1..] == lines[i + 1..];
    if !Blank(lines[i]) { IsLastLine(lines, n, i); }
    var e, rest := ToSeq(EntryOfLine(k, lines[i], i == n - 1)), Parse(k, lines[i + 1..]);
    assert Parse(k, lines[i..]) == e + rest;
    assert before + (e + rest) == before + e + rest;
  }

  ghost predicate ErrorWithin<E>(k: Codec<E>, lines: seq<seq<byte>>, n: nat) {
    exists i :: 0 <= i < n && i < |lines| && LineHasError(k, lines[i])
  }

  lemma ErrorNext<E>(k: Codec<E>, lines: seq<seq<byte>>, n: nat)
    requires n < |lines|
    ensures ErrorWithin(k, lines, n + 1) <==> ErrorWithin(k, lines, n) || LineHasError(k, lines[n])
  {
    if i :| 0 <= i < n + 1 && i < |lines| && LineHasError(k, lines[i]) {
      assert i < n || i == n;
    }
  }

  /** What the loop over the lines has collected before line `i`. */
  ghost predicate ReadUpTo<E>(k: Codec<E>, lines: seq<seq<byte>>, i: nat, entries: seq<E>, hadErrors: bool)
    requires i <= |lines|
  {
    entries + Parse(k, lines[i..]) == Parse(k, lines) && (hadErrors <==> ErrorWithin(k, lines, i))
  }

  lemma ReadNone<E>(k: Codec<E>, lines: seq<seq<byte>>)
    ensures ReadUpTo(k, lines, 0, [], false)
  {
    assert lines[0..] == lines;
  }

  lemma ReadOneMore<E>(k: Codec<E>, lines: seq<seq<byte>>, n: nat, i: nat, entries: seq<E>, hadErrors: bool)
    requires BlankFrom(lines, n) && i < |lines| && ReadUpTo(k, lines, i, entries, hadErrors)
    ensures ReadUpTo(k, lines, i + 1, entries + ToSeq(EntryOfLine(k, lines[i], i == n - 1)),
                     hadErrors || LineHasError(k, lines[i]))
  {
    ParseNext(k, lines, n, i, entries);
    ErrorNext(k, lines, i);
  }

  /** `read_scan_log` on the lines of an existing file. */
  method ReadScanLog<E>(k: Codec<E>, file: seq<byte>) returns (entries: seq<E>, hadErrors: bool)
    ensures entries == Load(k, file)
    ensures hadErrors <==> HasErrors(k, file)
  {
    var lines := Lines(file);
    var lastNonEmpty := |lines|;
    while lastNonEmpty > 0 && Blank(lines[lastNonEmpty - 1])
      invariant 0 <= lastNonEmpty <= |lines|
      invariant forall j :: lastNonEmpty <= j < |lines| ==> Blank(lines[j])
    {
      lastNonEmpty := lastNonEmpty - 1;
    }
    entries, hadErrors := [], false;
    ReadNone(k, lines);
    for i := 0 to |lines|
      invariant ReadUpTo(k, lines, i, entries, hadErrors)
    {
      ReadOneMore(k, lines, lastNonEmpty, i, entries, hadErrors);
      entries := entries + ToSeq(EntryOfLine(k, lines[i], i == lastNonEmpty - 1));
      hadErrors := hadErrors || LineHasError(k, lines[i]);
    }
  }

  // ------------------------------------------------------------------ file layout

  function Record<E>(k: Codec<E>, e: E): seq<byte> { k.enc(e) + [NEWLINE] }

  function EncodeAll<E>(k: Codec<E>, es: seq<E>): seq<byte> {
    if es == [] then [] else Record(k, es[0]) + EncodeAll(k, es[1..])
  }

  lemma {:induction false} EncodeSnoc<E>(k: Codec<E>, es: seq<E>, e: E)
    ensures EncodeAll(k, es + [e]) == EncodeAll(k, es) + Record(k, e)
  {
    if es == [] {
      assert (es + [e])[1..] == [];
    } else {
      assert (es + [e])[1..] == es[1..] + [e];
      EncodeSnoc(k, es[1..], e);
    }
  }

  ghost predicate EndsLine(f: seq<byte>) { f == [] || f[|f| - 1] == NEWLINE }

  lemma {:induction false} LineLengthIs(f: seq<byte>, n: nat)
    requires n <= |f| && (forall i :: 0 <= i < n ==> f[i] != NEWLINE) && (n < |f| ==> f[n] == NEWLINE)
    ensures LineLength(f) == n
  {
    var m := LineLength(f);
    assert m < n ==> m < |f|;
    assert n < m ==> n < |f|;
  }

  lemma {:induction false} LinesConcat(f: seq<byte>, g: seq<byte>)
    requires EndsLine(f)
    ensures Lines(f + g) == Lines(f) + Lines(g)
    decreases |f|
  {
    if f == [] {
      assert f + g == g;
    } else {
      var n := LineLength(f);
      assert n < |f|;
      assert (f + g)[..n] == f[..n];
      LineLengthIs(f + g, n);
      assert (f + g)[n + 1..] == f[n + 1..] + g;
      LinesConcat(f[n + 1..], g);
    }
  }

  /** A tail without a newline inside is one line. */
  lemma SingleLine(t: seq<byte>)
    requires t != [] && NEWLINE !in t
    ensures Lines(t) == [t] && Lines(t + [NEWLINE]) == [t]
  {
    var u := t + [NEWLINE];
    LineLengthIs(t, |t|);
    LineLengthIs(u, |t|);
    assert t[..|t|] == t && u[..|t|] == t && u[|t| + 1..] == [];
  }

  lemma {:induction false} TrimKeepsRecord(s: seq<byte>)
    requires s != [] && !IsSpace(s[0]) && !IsSpace(s[|s| - 1])
    ensures Trim(s) == s
  {
  }

  lemma RecordIsSolid<E(!new)>(k: Codec<E>, e: E, last: bool)
    requires Lawful(k)
    ensures EntryOfLine(k, k.enc(e), last) == Some(e) && !Blank(k.enc(e))
  {
    assert LawfulFor(k, e);
    TrimKeepsRecord(k.enc(e));
  }

  lemma ConcatAssociates<T>(a: seq<T>, b: seq<T>, c: seq<T>)
    ensures a + b + c == a + (b + c)
  {
  }

  lemma LoadOne<E(!new)>(k: Codec<E>, e: E, g: seq<byte>)
    requires Lawful(k)
    ensures Load(k, Record(k, e) + g) == [e] + Load(k, g)
  {
    assert LawfulFor(k, e);
    SingleLine(k.enc(e));
    LinesConcat(Record(k, e), g);
    var lines := Lines(Record(k, e) + g);
    assert lines == [k.enc(e)] + Lines(g);
    assert lines[0] == k.enc(e) && lines[1..] == Lines(g);
    RecordIsSolid(k, e, forall l :: l in lines[1..] ==> Blank(l));
  }

  /** Whole records are read back whatever follows them. */
  lemma {:induction false} RecordsThen<E(!new)>(k: Codec<E>, es: seq<E>, g: seq<byte>)
    requires Lawful(k)
    ensures Load(k, EncodeAll(k, es) + g) == es + Load(k, g)
  {
    if es == [] {
      assert EncodeAll(k, es) + g == g;
    } else {
      ConcatAssociates(Record(k, es[0]), EncodeAll(k, es[1..]), g);
      LoadOne(k, es[0], EncodeAll(k, es[1..]) + g);
      RecordsThen(k, es[1..], g);
      ConcatAssociates([es[0]], es[1..], Load(k, g));
      assert es == [es[0]] + es[1..];
    }
  }

  /** A log of whole records followed by a tail on one line. */
  lemma LoadWithTail<E(!new)>(k: Codec<E>, es: seq<E>, t: seq<byte>, closed: bool)
    requires Lawful(k) && NEWLINE !in t && t != []
    ensures Load(k, EncodeAll(k, es) + t + (if closed then [NEWLINE] else []))
         == es + ToSeq(EntryOfLine(k, t, true))
  {
    var g := t + (if closed then [NEWLINE] else []);
    assert EncodeAll(k, es) + t + (if closed then [NEWLINE] else []) == EncodeAll(k, es) + g;
    assert !closed ==> g == t;
    SingleLine(t);
    RecordsThen(k, es, g);
    assert [t][1..] == [];
    assert Parse(k, [t]) == ToSeq(EntryOfLine(k, t, true)) + [];
  }

  /** The round trip: a log of whole records is read back exactly. */
  lemma LoadEncoded<E(!new)>(k: Codec<E>, es: seq<E>)
    requires Lawful(k)
    ensures Load(k, EncodeAll(k, es)) == es
  {
    RecordsThen(k, es, []);
    assert EncodeAll(k, es) + [] == EncodeAll(k, es);
  }

  // ------------------------------------------------ second chance and error flag

  lemma {:induction false} TrimEndOfTail(x: seq<byte>, tail: seq<byte>) returns (n: nat)
    requires x != [] && !IsSpace(x[|x| - 1])
    ensures n <= |tail| && TrimEnd(x + tail) == x + tail[..n]
    decreases |tail|
  {
    n := |tail|;
    assert tail[..n] == tail;
    if tail == [] {
      assert x + tail == x;
    } else if IsSpace(tail[|tail| - 1]) {
      assert (x + tail)[..|x + tail| - 1] == x + tail[..|tail| - 1];
      n := TrimEndOfTail(x, tail[..|tail| - 1]);
      assert tail[..|tail| - 1][..n] == tail[..n];
    }
  }

  lemma {:induction false} UpToBraceOfTail(x: seq<byte>, tail: seq<byte>)
    requires x != [] && x[|x| - 1] == BRACE && BRACE !in tail
    ensures UpToBrace(x + tail) == Some(x)
    decreases |tail|
  {
    if tail == [] {
      assert x + tail == x;
    } else {
      assert (x + tail)[..|x + tail| - 1] == x + tail[..|tail| - 1];
      UpToBraceOfTail(x, tail[..|tail| - 1]);
    }
  }

  /** A line that is a record with more text behind it. */
  lemma RecordWithTail<E(!new)>(k: Codec<E>, e: E, tail: seq<byte>, last: bool)
    requires Lawful(k) && BRACE !in tail
    ensures var t := k.enc(e) + tail;
      && !Blank(t)
      && EntryOfLine(k, t, last) == match k.dec(Trim(t))
         case Entry(other) => Some(other)
         case Unsupported => None
         case Malformed => if last then Some(e) else None
  {
    var x := k.enc(e);
    assert LawfulFor(k, e);
    assert (x + tail)[0] == x[0];
    var n := TrimEndOfTail(x, tail);
    UpToBraceOfTail(x, tail[..n]);
  }

  lemma TwoLines(t: seq<byte>, u: seq<byte>)
    requires t != [] && NEWLINE !in t && u != [] && NEWLINE !in u
    ensures Lines(t + [NEWLINE] + (u + [NEWLINE])) == [t, u]
  {
    SingleLine(t);
    SingleLine(u);
    LinesConcat(t + [NEWLINE], u + [NEWLINE]);
  }

  /** What a line with a whole record behind it contributes. */
  lemma LineThenRecord<E(!new)>(k: Codec<E>, es: seq<E>, t: seq<byte>, next: E)
    requires Lawful(k) && t != [] && NEWLINE !in t
    ensures Load(k, EncodeAll(k, es) + (t + [NEWLINE] + Record(k, next)))
         == es + (ToSeq(EntryOfLine(k, t, false)) + [next])
  {
    var u := k.enc(next);
    assert LawfulFor(k, next);
    RecordsThen(k, es, t + [NEWLINE] + Record(k, next));
    TwoLines(t, u);
    RecordIsSolid(k, next, true);
    var one, two: seq<seq<byte>> := [u], [t, u];
    assert two[1..] == one && one[1..] == [] && u in one;
    assert Parse(k, one) == [next];
    assert Parse(k, two) == ToSeq(EntryOfLine(k, t, false)) + Parse(k, one);
  }

  lemma LineAtEnd<E(!new)>(k: Codec<E>, es: seq<E>, t: seq<byte>)
    requires Lawful(k) && t != [] && NEWLINE !in t
    ensures Load(k, EncodeAll(k, es) + t) == es + ToSeq(EntryOfLine(k, t, true))
  {
    assert EncodeAll(k, es) + t + [] == EncodeAll(k, es) + t;
    LoadWithTail(k, es, t, false);
  }

  /** A record with trailing bytes that spoil it is recovered on the last line of the file, and
      only there: a record behind it makes it a lost one. Text of another schema version is not
      recovered anywhere. */
  lemma LastLineIsRecovered<E(!new)>(k: Codec<E>, es: seq<E>, e: E, tail: seq<byte>, next: E)
    requires Lawful(k) && NEWLINE !in tail && BRACE !in tail
    ensures var t, f := k.enc(e) + tail, EncodeAll(k, es);
      && (k.dec(Trim(t)).Malformed? ==>
            && Load(k, f + t) == es + [e]
            && Load(k, f + (t + [NEWLINE] + Record(k, next))) == es + [next])
      && (k.dec(Trim(t)).Unsupported? ==> Load(k, f + t) == es)
  {
    var t := k.enc(e) + tail;
    assert LawfulFor(k, e);
    LineAtEnd(k, es, t);
    LineThenRecord(k, es, t, next);
    RecordWithTail(k, e, tail, true);
    RecordWithTail(k, e, tail, false);
  }

  /** White space around a record on its line does not matter: tabs, vertical tabs, form feeds,
      carriage returns and blanks. */
  lemma PaddingIsTrimmed<E(!new)>(k: Codec<E>, es: seq<E>, before: seq<byte>, e: E, after: seq<byte>)
    requires Lawful(k) && forall b :: b in before || b in after ==> b in {9, 11, 12, 13, 32}
    ensures Load(k, EncodeAll(k, es) + (before + k.enc(e) + after)) == es + [e]
  {
    var x := k.enc(e);
    assert LawfulFor(k, e);
    assert before + x + after == before + (x + after);
    assert forall i :: 0 <= i < |before| ==> before[i] in before;
    assert forall i :: 0 <= i < |after| ==> after[i] in after;
    TrimStartDrops(before, x + after);
    TrimEndDrops(x, after);
    LineAtEnd(k, es, before + x + after);
  }

  lemma {:induction false} TrimEndDrops(s: seq<byte>, blanks: seq<byte>)
    requires AllBlank(blanks) && s != [] && !IsSpace(s[|s| - 1])
    ensures TrimEnd(s + blanks) == s
    decreases |blanks|
  {
    if blanks == [] {
      assert s + blanks == s;
    } else {
      assert (s + blanks)[..|s + blanks| - 1] == s + blanks[..|blanks| - 1];
      TrimEndDrops(s, blanks[..|blanks| - 1]);
    }
  }

  /** The reader reports errors. */
  ghost predicate HasErrors<E>(k: Codec<E>, file: seq<byte>) {
    ErrorWithin(k, Lines(file), |Lines(file)|)
  }

  lemma ErrorsBehindRecord<E(!new)>(k: Codec<E>, e: E, g: seq<byte>)
    requires Lawful(k)
    ensures HasErrors(k, Record(k, e) + g) <==> HasErrors(k, g)
  {
    assert LawfulFor(k, e);
    SingleLine(k.enc(e));
    LinesConcat(Record(k, e), g);
    TrimKeepsRecord(k.enc(e));
    var lines, rest := Lines(Record(k, e) + g), Lines(g);
    assert lines == [k.enc(e)] + rest;
    if i :| 0 <= i < |rest| && LineHasError(k, rest[i]) { assert LineHasError(k, lines[i + 1]); }
    if i :| 0 <= i < |lines| && LineHasError(k, lines[i]) { assert LineHasError(k, rest[i - 1]); }
  }

  /** Whole records give no error; bytes behind them on one line give one exactly when they are
      neither blank nor an entry as they stand, recovered or not. */
  lemma {:induction false} ErrorsAre<E(!new)>(k: Codec<E>, es: seq<E>, t: seq<byte>)
    requires Lawful(k) && NEWLINE !in t
    ensures HasErrors(k, EncodeAll(k, es) + t) <==> !Blank(t) && !k.dec(Trim(t)).Entry?
  {
    if es == [] {
      assert EncodeAll(k, es) + t == t;
      if t == [] {
        assert Blank(t);
      } else {
        SingleLine(t);
        assert LineHasError(k, [t][0]) <==> LineHasError(k, t);
      }
    } else {
      ConcatAssociates(Record(k, es[0]), EncodeAll(k, es[1..]), t);
      ErrorsBehindRecord(k, es[0], EncodeAll(k, es[1..]) + t);
      ErrorsAre(k, es[1..], t);
    }
  }

  // -------------------------------------------------------------- bytes on disk

  /** The file after `x` has been written over it from `start` on. */
  function Splice(f: seq<byte>, start: nat, x: seq<byte>): seq<byte>
    requires start <= |f|
  {
    f[..start] + x + (if start + |x| <= |f| then f[start + |x|..] else [])
  }

  /** The contents the disk holds after each byte of writing `x` from `start` on. */
  function WriteStates(f: seq<byte>, start: nat, x: seq<byte>): (h: seq<seq<byte>>)
    requires start <= |f|
    ensures |h| == |x|
  {
    seq(|x|, i requires 0 <= i < |x| => Splice(f, start, x[..i + 1]))
  }

  /** Writing byte `i` of `x` leads from one of these contents to the next. */
  lemma OneMoreByte(f: seq<byte>, start: nat, x: seq<byte>, i: nat)
    requires start <= |f| && i < |x|
    ensures var now, p := Splice(f, start, x[..i]), start + i;
      && p <= |now|
      && now[..p] + [x[i]] + (if p < |now| then now[p + 1..] else []) == Splice(f, start, x[..i + 1])
    ensures WriteStates(f, start, x)[..i] + [Splice(f, start, x[..i + 1])] == WriteStates(f, start, x)[..i + 1]
  {
    var now, p := Splice(f, start, x[..i]), start + i;
    assert now[..p] == f[..start] + x[..i];
    assert x[..i + 1] == x[..i] + [x[i]];
  }

  /** The earlier entries, unchanged and in order, and at most one more. */
  ghost predicate KeepsAll<E>(k: Codec<E>, es: seq<E>, file: seq<byte>) {
    es <= Load(k, file) && |Load(k, file)| <= |es| + 1
  }

  lemma TailKeepsAll<E(!new)>(k: Codec<E>, es: seq<E>, t: seq<byte>, closed: bool)
    requires Lawful(k) && NEWLINE !in t && t != []
    ensures KeepsAll(k, es, EncodeAll(k, es) + t + (if closed then [NEWLINE] else []))
  {
    LoadWithTail(k, es, t, closed);
  }

  /** A crash after any byte of appending a record. */
  lemma CrashWhileAppending<E(!new)>(k: Codec<E>, es: seq<E>, e: E, n: nat)
    requires Lawful(k) && n < |Record(k, e)|
    ensures var f := EncodeAll(k, es);
      KeepsAll(k, es, WriteStates(f, |f|, Record(k, e))[n])
  {
    var f, r := EncodeAll(k, es), Record(k, e);
    assert LawfulFor(k, e);
    var closed := n == |r| - 1;
    var t := if closed then k.enc(e) else r[..n + 1];
    assert t == k.enc(e)[..|t|];
    assert Splice(f, |f|, r[..n + 1]) == f + t + (if closed then [NEWLINE] else []);
    TailKeepsAll(k, es, t, closed);
  }

  /** The bytes on disk after `n` bytes of overwriting the line `p` with the line `c`. */
  lemma SpliceShape(a: seq<byte>, p: seq<byte>, c: seq<byte>, n: nat)
    requires |p| <= |c| && 1 <= n <= |c|
    ensures Splice(a + (p + [NEWLINE]), |a|, c[..n])
         == if n < |p| then a + (c[..n] + p[n..]) + [NEWLINE]
            else if n == |p| then a + c[..n] + [NEWLINE]
            else a + c[..n]
  {
    var f := a + (p + [NEWLINE]);
    assert f[..|a|] == a;
    if n <= |p| {
      assert f[|a| + n..] == p[n..] + [NEWLINE];
      assert n == |p| ==> p[n..] == [];
    } else if n == |p| + 1 {
      assert f[|a| + n..] == [];
    }
  }

  /** A crash after any byte of overwriting a pending record with its completion, which
      is never the shorter record: it only fills in a time and a result. */
  lemma CrashWhileCompleting<E(!new)>(k: Codec<E>, es: seq<E>, pending: E, completed: E, n: nat)
    requires Lawful(k) && |k.enc(pending)| <= |k.enc(completed)|
    requires n < |Record(k, completed)|
    ensures var f := EncodeAll(k, es + [pending]);
      && |EncodeAll(k, es)| <= |f|
      && KeepsAll(k, es, WriteStates(f, |EncodeAll(k, es)|, Record(k, completed))[n])
  {
    EncodeSnoc(k, es, pending);
    CompletingState(EncodeAll(k, es), k.enc(pending), k.enc(completed), n);
    CompletingStateKeepsAll(k, es, pending, completed, n);
  }

  /** The line `p` after `n + 1` bytes of `c` and its newline were written over it. */
  function Completing(a: seq<byte>, p: seq<byte>, c: seq<byte>, n: nat): seq<byte>
    requires |p| <= |c|
  {
    if n >= |c| then a + (c + [NEWLINE])
    else if n + 1 < |p| then a + (c[..n + 1] + p[n + 1..]) + [NEWLINE]
    else if n + 1 == |p| then a + c[..n + 1] + [NEWLINE]
    else a + c[..n + 1]
  }

  lemma CompletingState(a: seq<byte>, p: seq<byte>, c: seq<byte>, n: nat)
    requires |p| <= |c| && n <= |c|
    ensures WriteStates(a + (p + [NEWLINE]), |a|, c + [NEWLINE])[n] == Completing(a, p, c, n)
  {
    var r := c + [NEWLINE];
    if n == |c| {
      assert r[..n + 1] == r;
      assert (a + (p + [NEWLINE]))[..|a|] == a;
    } else {
      assert r[..n + 1] == c[..n + 1];
      SpliceShape(a, p, c, n + 1);
    }
  }

  lemma CompletingStateKeepsAll<E(!new)>(k: Codec<E>, es: seq<E>, pending: E, completed: E, n: nat)
    requires Lawful(k) && n <= |k.enc(completed)| && |k.enc(pending)| <= |k.enc(completed)|
    ensures KeepsAll(k, es, Completing(EncodeAll(k, es), k.enc(pending), k.enc(completed), n))
  {
    var a, p, c := EncodeAll(k, es), k.enc(pending), k.enc(completed);
    assert LawfulFor(k, pending) && LawfulFor(k, completed);
    if n == |c| {
      EncodeSnoc(k, es, completed);
      LoadEncoded(k, es + [completed]);
    } else if n + 1 < |p| {
      TailKeepsAll(k, es, c[..n + 1] + p[n + 1..], true);
    } else {
      TailKeepsAll(k, es, c[..n + 1], n + 1 == |p|);
      assert a + c[..n + 1] + [] == a + c[..n + 1];
    }
  }

  lemma {:induction false} EncodeConcat<E>(k: Codec<E>, es: seq<E>, fs: seq<E>)
    ensures EncodeAll(k, es + fs) == EncodeAll(k, es) + EncodeAll(k, fs)
  {
    if es == [] {
      assert es + fs == fs;
    } else {
      assert (es + fs)[1..] == es[1..] + fs;
      EncodeConcat(k, es[1..], fs);
      ConcatAssociates(Record(k, es[0]), EncodeAll(k, es[1..]), EncodeAll(k, fs));
    }
  }

  /** Without a crash the completion exactly replaces the pending line, and with it
      every record written since: the truncation drops them. */
  lemma CompletionReplaces<E(!new)>(k: Codec<E>, es: seq<E>, pending: E, since: seq<E>, completed: E)
    requires Lawful(k)
    ensures var f, start := EncodeAll(k, es + ([pending] + since)), |EncodeAll(k, es)|;
      && start <= |f|
      && f[..start] + Record(k, completed) == EncodeAll(k, es + [completed])
      && Load(k, f[..start] + Record(k, completed)) == es + [completed]
  {
    EncodeConcat(k, es, [pending] + since);
    EncodeSnoc(k, es, completed);
    assert EncodeAll(k, es + ([pending] + since))[..|EncodeAll(k, es)|] == EncodeAll(k, es);
    LoadEncoded(k, es + [completed]);
  }

  // --------------------------------------------------------------------- torn lines

  predicate AllBlank(s: seq<byte>) { forall i :: 0 <= i < |s| ==> IsSpace(s[i]) }

  /** What sets the text of a JSON object apart: neither a proper beginning of a record nor a
      record with other text before it on its line is an entry. */
  ghost predicate Framed<E(!new)>(k: Codec<E>) {
    forall e, before, m :: FramedAt(k, e, before, m)
  }

  predicate FramedAt<E>(k: Codec<E>, e: E, before: seq<byte>, m: nat) {
    NEWLINE !in before && 1 <= m <= |k.enc(e)| && (!AllBlank(before) || m < |k.enc(e)|) ==>
      !k.dec(TrimStart(before + k.enc(e)[..m])).Entry?
  }

  /** A record behind torn bytes on one line is read if and only if those bytes are blank. */
  lemma JoinedLine<E(!new)>(k: Codec<E>, torn: seq<byte>, e: E, last: bool)
    requires Lawful(k) && Framed(k) && NEWLINE !in torn
    ensures EntryOfLine(k, torn + k.enc(e), last) == if AllBlank(torn) then Some(e) else None
    ensures !Blank(torn + k.enc(e))
  {
    var t := torn + k.enc(e);
    assert LawfulFor(k, e) && FramedAt(k, e, torn, |k.enc(e)|);
    assert k.enc(e)[..|k.enc(e)|] == k.enc(e);
    if AllBlank(torn) { TrimStartDrops(torn, k.enc(e)); }
    LineToBrace(k, t, last);
  }

  /** A record appended to a log whose last line was torn is read back if and only if the torn
      bytes are blank; the earlier records are safe either way. */
  lemma TornTailSwallows<E(!new)>(k: Codec<E>, es: seq<E>, torn: seq<byte>, e: E)
    requires Lawful(k) && Framed(k) && NEWLINE !in torn
    ensures Load(k, EncodeAll(k, es) + torn + Record(k, e)) == if AllBlank(torn) then es + [e] else es
  {
    JoinedLine(k, torn, e, true);
    var t := torn + k.enc(e);
    assert LawfulFor(k, e);
    assert EncodeAll(k, es) + torn + Record(k, e) == EncodeAll(k, es) + t + [NEWLINE];
    LoadWithTail(k, es, t, true);
  }

  /** A line that ends in a brace gets no second chance: there is nothing to cut off. */
  lemma LineToBrace<E>(k: Codec<E>, t: seq<byte>, last: bool)
    requires t != [] && t[|t| - 1] == BRACE
    ensures EntryOfLine(k, t, last) == match k.dec(TrimStart(t)) case Entry(e) => Some(e) case _ => None
    ensures !Blank(t)
  {
    TrimStartKeepsEnd(t);
    var raw := TrimStart(t);
    assert TrimEnd(raw) == raw && UpToBrace(raw) == Some(raw);
  }

  /** Every crash inside an append costs the next record: neither the torn one nor the one
      appended after it is read, even if the torn one was still readable before. */
  lemma CrashCostsNextRecord<E(!new)>(k: Codec<E>, es: seq<E>, torn: E, n: nat, e: E)
    requires Lawful(k) && Framed(k) && n < |k.enc(torn)|
    ensures var f := EncodeAll(k, es);
      && Load(k, WriteStates(f, |f|, Record(k, torn))[n] + Record(k, e)) == es
      && (n == |k.enc(torn)| - 1 ==> Load(k, WriteStates(f, |f|, Record(k, torn))[n]) == es + [torn])
  {
    var f, t := EncodeAll(k, es), k.enc(torn)[..n + 1];
    assert LawfulFor(k, torn);
    assert t[0] == k.enc(torn)[0];
    assert Record(k, torn)[..n + 1] == t;
    assert WriteStates(f, |f|, Record(k, torn))[n] == f + t;
    TornTailSwallows(k, es, t, e);
    if n == |k.enc(torn)| - 1 {
      assert t == k.enc(torn);
      LoadWithTail(k, es, t, false);
      RecordIsSolid(k, torn, true);
      assert f + t + [] == f + t;
    }
  }

  lemma {:induction false} TrimStartKeepsEnd(s: seq<byte>)
    requires s != [] && !IsSpace(s[|s| - 1])
    ensures var r := TrimStart(s); r != [] && r[|r| - 1] == s[|s| - 1]
    decreases |s|
  {
    if IsSpace(s[0]) { TrimStartKeepsEnd(s[1..]); }
  }

  lemma {:induction false} TrimStartDrops(blanks: seq<byte>, s: seq<byte>)
    requires AllBlank(blanks) && s != [] && !IsSpace(s[0])
    ensures TrimStart(blanks + s) == s
  {
    if blanks == [] {
      assert blanks + s == s;
    } else {
      assert (blanks + s)[1..] == blanks[1..] + s;
      TrimStartDrops(blanks[1..], s);
    }
  }

  // ------------------------------------------------------------------ the writer

  class ScanLogWriter<E> {
    const codec: Codec<E>
    var bytes: seq<byte>
    var position: nat
    var pendingOffset: Option<nat>
    /** Every content the disk has held since the log was opened. */
    ghost var history: seq<seq<byte>>

    ghost predicate Valid()
      reads this
    {
      position <= |bytes| && (pendingOffset.Some? ==> pendingOffset.value <= |bytes|)
    }

    constructor OpenAppend(codec: Codec<E>, existing: seq<byte>)
      ensures Valid() && this.codec == codec && bytes == existing && position == |existing|
      ensures pendingOffset == None && history == []
    {
      this.codec := codec;
      bytes, position, pendingOffset, history := existing, |existing|, None, [];
    }

    /** One record and its newline, from the current position on, byte by byte. */
    method WriteRecord(e: E)
      requires Valid()
      modifies this`bytes, this`position, this`history
      ensures Valid()
      ensures var r := Record(codec, e);
        && bytes == Splice(old(bytes), old(position), r)
        && position == old(position) + |r|
        && history == old(history) + WriteStates(old(bytes), old(position), r)
    {
      var r := Record(codec, e);
      ghost var start, f := position, bytes;
      assert bytes == Splice(f, start, r[..0]);
      for i := 0 to |r|
        invariant start <= |f| && position == start + i && position <= |bytes|
        invariant pendingOffset.Some? ==> pendingOffset.value <= |bytes|
        invariant bytes == Splice(f, start, r[..i])
        invariant history == old(history) + WriteStates(f, start, r)[..i]
      {
        OneMoreByte(f, start, r, i);
        bytes := bytes[..position] + [r[i]] + (if position < |bytes| then bytes[position + 1..] else []);
        position := position + 1;
        history := history + [bytes];
      }
      assert r[..|r|] == r;
    }

    method WriteEntry(e: E)
      requires Valid()
      modifies this`bytes, this`position, this`history
      ensures Valid()
      ensures bytes == old(bytes) + Record(codec, e)
      ensures history == old(history) + WriteStates(old(bytes), |old(bytes)|, Record(codec, e))
    {
      position := |bytes|;
      WriteRecord(e);
    }

    method WritePendingTestResult(e: E)
      requires Valid()
      modifies this
      ensures Valid()
      ensures bytes == old(bytes) + Record(codec, e) && pendingOffset == Some(|old(bytes)|)
      ensures history == old(history) + WriteStates(old(bytes), |old(bytes)|, Record(codec, e))
    {
      var start := |bytes|;
      position := start;
      WriteRecord(e);
      pendingOffset := Some(start);
    }

    /** Overwrite from the pending record on, then cut the file off after the new one:
        whatever followed the pending record is gone. */
    method OverwriteEntry(e: E)
      requires Valid() && pendingOffset.Some?
      modifies this
      ensures Valid() && pendingOffset == None
      ensures bytes == old(bytes)[..old(pendingOffset).value] + Record(codec, e)
      ensures history == old(history) + WriteStates(old(bytes), old(pendingOffset).value, Record(codec, e)) + [bytes]
    {
      position := pendingOffset.value;
      WriteRecord(e);
      bytes := bytes[..position];
      pendingOffset := None;
      history := history + [bytes];
    }

    method WriteCompletedTestResult(e: E)
      requires Valid()
      modifies this
      ensures Valid() && pendingOffset == None
      ensures var kept := if old(pendingOffset).Some? then old(bytes)[..old(pendingOffset).value] else old(bytes);
        bytes == kept + Record(codec, e)
      ensures history == old(history)
        + if old(pendingOffset).Some?
          then WriteStates(old(bytes), old(pendingOffset).value, Record(codec, e)) + [bytes]
          else WriteStates(old(bytes), |old(bytes)|, Record(codec, e))
    {
      if pendingOffset.Some? {
        OverwriteEntry(e);
      } else {
        WriteEntry(e);
      }
    }
  }

  /** Every content of a stretch of history keeps the entries `es`. */
  ghost predicate AllKeep<E>(k: Codec<E>, es: seq<E>, h: seq<seq<byte>>) {
    forall n :: 0 <= n < |h| ==> KeepsAll(k, es, h[n])
  }

  lemma PendingStatesKeep<E(!new)>(k: Codec<E>, es: seq<E>, pending: E)
    requires Lawful(k)
    ensures var f := EncodeAll(k, es); AllKeep(k, es, WriteStates(f, |f|, Record(k, pending)))
  {
    var f := EncodeAll(k, es);
    forall n | 0 <= n < |Record(k, pending)| ensures KeepsAll(k, es, WriteStates(f, |f|, Record(k, pending))[n]) {
      CrashWhileAppending(k, es, pending, n);
    }
  }

  lemma CompletionStatesKeep<E(!new)>(k: Codec<E>, es: seq<E>, pending: E, completed: E)
    requires Lawful(k) && |k.enc(pending)| <= |k.enc(completed)|
    ensures var f, start := EncodeAll(k, es + [pending]), |EncodeAll(k, es)|;
      && start <= |f|
      && AllKeep(k, es, WriteStates(f, start, Record(k, completed)) + [f[..start] + Record(k, completed)])
  {
    var f, start := EncodeAll(k, es + [pending]), |EncodeAll(k, es)|;
    CompletionReplaces(k, es, pending, [], completed);
    assert [pending] + [] == [pending];
    var h := WriteStates(f, start, Record(k, completed));
    forall n | 0 <= n < |h| ensures KeepsAll(k, es, h[n]) {
      CrashWhileCompleting(k, es, pending, completed, n);
    }
  }

  /** A test logged around a crash-prone run: pending record, then its completion.  At
      every moment the disk holds a log that reads back as everything before the test
      and at most one more entry; at the end that entry is the completion. */
  method LogTest<E(!new)>(w: ScanLogWriter<E>, ghost es: seq<E>, pending: E, completed: E)
    requires Lawful(w.codec) && w.Valid()
    requires w.bytes == EncodeAll(w.codec, es) && w.history == []
    requires |w.codec.enc(pending)| <= |w.codec.enc(completed)|
    modifies w
    ensures AllKeep(w.codec, es, w.history)
    ensures w.Valid() && w.bytes == EncodeAll(w.codec, es + [completed])
    ensures Load(w.codec, w.bytes) == es + [completed]
  {
    ghost var k := w.codec;
    PendingStatesKeep(k, es, pending);
    CompletionStatesKeep(k, es, pending, completed);
    EncodeSnoc(k, es, pending);
    w.WritePendingTestResult(pending);
    w.WriteCompletedTestResult(completed);
    CompletionReplaces(k, es, pending, [], completed);
    assert [pending] + [] == [pending];
  }
}
