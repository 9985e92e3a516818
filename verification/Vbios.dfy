/** The BIT token table of a video BIOS image (cli/src/vbios.rs): an anchor scan for the
    longest chain of plausible entries, and an emitter it is meant to invert. */
module Vbios {
  import opened Options

  datatype BitToken = BitToken(token: byte, version: byte, size: nat, offset: nat)

  datatype BitSummary = BitSummary(bitOffset: nat, bitVersion: byte, dataBase: nat, tokens: seq<BitToken>)

  datatype ParseError = NoSignature | SignatureAtEnd | NoTable

  datatype Parsed = Ok(summary: BitSummary) | Err(error: ParseError)

  // --------------------------------------------------------------- the signature

  predicate SignatureAt(image: seq<byte>, i: nat) {
    i + 3 <= |image| && image[i] == 66 && image[i + 1] == 73 && image[i + 2] == 84
  }

  ghost predicate IsFirstSignature(image: seq<byte>, r: Option<nat>) {
    match r
    case None => forall i: nat :: !SignatureAt(image, i)
    case Some(bit) => SignatureAt(image, bit) && forall i: nat :: i < bit ==> !SignatureAt(image, i)
  }

  method FindBit(image: seq<byte>) returns (r: Option<nat>)
    ensures IsFirstSignature(image, r)
  {
    for i := 0 to |image|
      invariant forall k: nat :: k < i ==> !SignatureAt(image, k)
    {
      if SignatureAt(image, i) { return Some(i); }
    }
    r := None;
  }

  // ------------------------------------------------------------------- the chains

  predicate Graphic(b: byte) { 33 <= b <= 126 }

  function Le16(lo: byte, hi: byte): nat { lo + 256 * hi }

  function TokenAt(image: seq<byte>, p: nat): BitToken
    requires p + 6 <= |image|
  {
    BitToken(image[p], image[p + 1], Le16(image[p + 2], image[p + 3]), Le16(image[p + 4], image[p + 5]))
  }

  /** A printable token, a small version, and a sub-table inside the image. */
  predicate Plausible(t: BitToken, bit: nat, length: nat) {
    Graphic(t.token) && t.version <= 10 && bit + t.offset + t.size <= length
  }

  /** A chain of entries: its tokens, whether it met no implausible entry, and where it
      stopped. */
  datatype Chain = Chain(tokens: seq<BitToken>, ok: bool, end: nat)

  function Walk(image: seq<byte>, bit: nat, p: nat): Chain
    decreases |image| - p
  {
    if p + 6 > |image| || p >= bit + 512 || image[p] == 0 then Chain([], true, p)
    else if !Plausible(TokenAt(image, p), bit, |image|) then Chain([], false, p)
    else
      var rest := Walk(image, bit, p + 6);
      rest.(tokens := [TokenAt(image, p)] + rest.tokens)
  }

  /** The chain from `start` is long enough and really ran to a zero byte. */
  predicate Accepted(image: seq<byte>, bit: nat, start: nat) {
    var c := Walk(image, bit, start);
    c.ok && |c.tokens| >= 4 && c.end < |image| && image[c.end] == 0
  }

  function ScanLimit(image: seq<byte>, bit: nat): int {
    if bit + 64 <= |image| - 6 then bit + 64 else |image| - 6
  }

  predicate InWindow(image: seq<byte>, bit: nat, start: nat) {
    bit + 4 <= start < ScanLimit(image, bit)
  }

  /** `start` begins the earliest of the longest accepted chains in the window. */
  ghost predicate IsBest(image: seq<byte>, bit: nat, start: nat) {
    && InWindow(image, bit, start) && Accepted(image, bit, start)
    && forall s: nat :: InWindow(image, bit, s) && Accepted(image, bit, s) ==>
         && |Walk(image, bit, s).tokens| <= |Walk(image, bit, start).tokens|
         && (s < start ==> |Walk(image, bit, s).tokens| < |Walk(image, bit, start).tokens|)
  }

  ghost predicate NoneAccepted(image: seq<byte>, bit: nat) {
    forall s: nat :: InWindow(image, bit, s) ==> !Accepted(image, bit, s)
  }

  /** The inner loop of the scan. */
  method FollowChain(image: seq<byte>, bit: nat, start: nat) returns (tokens: seq<BitToken>, ok: bool, p: nat)
    requires start <= |image|
    ensures Chain(tokens, ok, p) == Walk(image, bit, start)
  {
    tokens, p, ok := [], start, true;
    while p + 6 <= |image| && p < bit + 512
      invariant ok
      invariant Walk(image, bit, start)
             == var rest := Walk(image, bit, p); rest.(tokens := tokens + rest.tokens)
      decreases |image| - p
    {
      if image[p] == 0 {
        assert tokens + [] == tokens;
        return;
      }
      var t := TokenAt(image, p);
      if !Plausible(t, bit, |image|) {
        ok := false;
        assert tokens + [] == tokens;
        return;
      }
      ghost var rest := Walk(image, bit, p + 6);
      assert tokens + ([t] + rest.tokens) == tokens + [t] + rest.tokens;
      tokens := tokens + [t];
      p := p + 6;
    }
    assert tokens + [] == tokens;
  }

  /** The best start among those before `s`. */
  ghost predicate BestBefore(image: seq<byte>, bit: nat, s: nat, best: Option<(nat, seq<BitToken>)>) {
    match best
    case None => forall q: nat :: InWindow(image, bit, q) && q < s ==> !Accepted(image, bit, q)
    case Some((b, tokens)) =>
      && InWindow(image, bit, b) && b < s && Accepted(image, bit, b) && tokens == Walk(image, bit, b).tokens
      && forall q: nat :: InWindow(image, bit, q) && q < s && Accepted(image, bit, q) ==>
           && |Walk(image, bit, q).tokens| <= |tokens| && (q < b ==> |Walk(image, bit, q).tokens| < |tokens|)
  }

  /** What the parser answers for an image: each error for exactly its own reason, and
      otherwise the earliest longest accepted chain behind the first signature. */
  ghost predicate ParsesTo(image: seq<byte>, r: Parsed) {
    match r
    case Err(NoSignature) => IsFirstSignature(image, None)
    case Err(SignatureAtEnd) => exists bit: nat :: IsFirstSignature(image, Some(bit)) && bit + 8 > |image|
    case Err(NoTable) =>
      exists bit: nat :: IsFirstSignature(image, Some(bit)) && bit + 8 <= |image| && NoneAccepted(image, bit)
    case Ok(s) =>
      && IsFirstSignature(image, Some(s.bitOffset)) && s.bitOffset + 8 <= |image|
      && exists start: nat :: IsBest(image, s.bitOffset, start)
           && s == SummaryOf(image, s.bitOffset, Walk(image, s.bitOffset, start).tokens)
  }

  /** The whole parser. */
  method ParseBit(image: seq<byte>) returns (r: Parsed)
    ensures ParsesTo(image, r)
  {
    var found := FindBit(image);
    if found.None? { return Err(NoSignature); }
    var bit := found.value;
    if bit + 8 > |image| { return Err(SignatureAtEnd); }
    var limit := ScanLimit(image, bit);
    var best: Option<(nat, seq<BitToken>)> := None;
    var start := bit + 4;
    while start < limit
      invariant bit + 4 <= start && (start <= limit || start == bit + 4)
      invariant BestBefore(image, bit, start, best)
    {
      var tokens, ok, p := FollowChain(image, bit, start);
      if ok && |tokens| >= 4 && p < |image| && image[p] == 0 && (best.None? || |best.value.1| < |tokens|) {
        best := Some((start, tokens));
      }
      start := start + 1;
    }
    if best.None? { return Err(NoTable); }
    var (s, tokens) := best.value;
    assert IsBest(image, bit, s);
    r := Ok(SummaryOf(image, bit, tokens));
  }

  lemma FirstSignatureIsUnique(image: seq<byte>, bit: nat)
    requires IsFirstSignature(image, Some(bit))
    ensures forall b: nat :: IsFirstSignature(image, Some(b)) ==> b == bit
    ensures bit + 3 <= |image|
  {
  }

  lemma BestIsUnique(image: seq<byte>, bit: nat, s: nat, t: nat)
    requires IsBest(image, bit, s) && IsBest(image, bit, t)
    ensures s == t
  {
  }

  /** The answer is determined by the image. */
  lemma AnswerIsUnique(image: seq<byte>, r: Parsed, q: Parsed)
    requires ParsesTo(image, r) && ParsesTo(image, q)
    ensures r == q
  {
    if bit: nat :| IsFirstSignature(image, Some(bit)) {
      FirstSignatureIsUnique(image, bit);
      if r.Ok? && q.Ok? {
        var s: nat :| IsBest(image, bit, s) && r.summary == SummaryOf(image, bit, Walk(image, bit, s).tokens);
        var t: nat :| IsBest(image, bit, t) && q.summary == SummaryOf(image, bit, Walk(image, bit, t).tokens);
        BestIsUnique(image, bit, s, t);
      }
    }
  }

  function SummaryOf(image: seq<byte>, bit: nat, tokens: seq<BitToken>): BitSummary
    requires bit + 3 < |image|
  {
    BitSummary(bit, image[bit + 3], DetectDataBase(image, bit, tokens), tokens)
  }

  // ---------------------------------------------------- slices and the data base

  /** `image[from..][..size]`, if it lies inside. */
  function Slice(image: seq<byte>, from: nat, size: nat): Option<seq<byte>> {
    if from + size <= |image| then Some(image[from..from + size]) else None
  }

  function FindToken(tokens: seq<BitToken>, token: byte): Option<BitToken> {
    if tokens == [] then None
    else if tokens[0].token == token then Some(tokens[0])
    else FindToken(tokens[1..], token)
  }

  function TokenRaw(s: BitSummary, image: seq<byte>, token: byte): Option<seq<byte>> {
    match FindToken(s.tokens, token)
    case None => None
    case Some(t) => Slice(image, s.dataBase + t.offset, t.size)
  }

  const KNOWN_PERF_LAYOUTS: set<byte> := {0x10, 0x11, 0x12, 0x50, 0x81}

  const PERF: byte := 80

  /** The layout byte of a perf table: in the table itself at +1 or +2, or first in the
      table its first little-endian word points at. */
  function PerfLayoutByte(image: seq<byte>, raw: seq<byte>): Option<byte> {
    if |raw| > 1 && raw[1] in KNOWN_PERF_LAYOUTS then Some(raw[1])
    else if |raw| > 2 && raw[2] in KNOWN_PERF_LAYOUTS then Some(raw[2])
    else if |raw| < 4 then None
    else
      var ptr := Le16(raw[0], raw[1]) + 65536 * Le16(raw[2], raw[3]);
      if ptr < |image| && image[ptr] in KNOWN_PERF_LAYOUTS then Some(image[ptr]) else None
  }

  /** The perf table resolved against `base` carries a known layout byte. */
  predicate Resolves(image: seq<byte>, base: nat, p: BitToken) {
    var raw := Slice(image, base + p.offset, p.size);
    raw.Some? && PerfLayoutByte(image, raw.value).Some?
  }

  function DetectDataBase(image: seq<byte>, bit: nat, tokens: seq<BitToken>): nat {
    match FindToken(tokens, PERF)
    case None => bit
    case Some(p) => if Resolves(image, bit, p) then bit else if Resolves(image, 0, p) then 0 else bit
  }

  lemma {:induction false} WalkTokensPlausible(image: seq<byte>, bit: nat, p: nat)
    ensures forall t :: t in Walk(image, bit, p).tokens ==> Plausible(t, bit, |image|)
    decreases |image| - p
  {
    if !(p + 6 > |image| || p >= bit + 512 || image[p] == 0) && Plausible(TokenAt(image, p), bit, |image|) {
      WalkTokensPlausible(image, bit, p + 6);
    }
  }

  lemma {:induction false} FindTokenFinds(tokens: seq<BitToken>, token: byte)
    ensures match FindToken(tokens, token)
      case None => forall t :: t in tokens ==> t.token != token
      case Some(t) =>
        && t in tokens && t.token == token
        && exists k :: 0 <= k < |tokens| && tokens[k] == t && forall i :: 0 <= i < k ==> tokens[i].token != token
  {
    if tokens != [] && tokens[0].token != token { FindTokenFinds(tokens[1..], token); }
  }

  /** Every token the parser accepts can be sliced, with its full size, whichever base was
      detected; and a token that is not in the table gives nothing. */
  lemma AcceptedTokensSlice(image: seq<byte>, bit: nat, start: nat, token: byte)
    requires bit + 3 < |image|
    ensures var s := SummaryOf(image, bit, Walk(image, bit, start).tokens);
      match FindToken(s.tokens, token)
      case None => TokenRaw(s, image, token) == None
      case Some(t) =>
        && s.dataBase + t.offset + t.size <= |image|
        && TokenRaw(s, image, token) == Some(image[s.dataBase + t.offset..s.dataBase + t.offset + t.size])
  {
    WalkTokensPlausible(image, bit, start);
    FindTokenFinds(Walk(image, bit, start).tokens, token);
  }

  /** The image-relative base wins only where the BIT-relative one resolves to no known
      perf layout and the image-relative one does. */
  lemma ImageBaseIff(image: seq<byte>, bit: nat, tokens: seq<BitToken>)
    requires bit > 0
    ensures DetectDataBase(image, bit, tokens) == 0 <==>
      exists p :: FindToken(tokens, PERF) == Some(p) && !Resolves(image, bit, p) && Resolves(image, 0, p)
  {
  }

  // --------------------------------------------------------------------- the emitter

  predicate Encodable(t: BitToken) { t.size < 65536 && t.offset < 65536 }

  function EmitToken(t: BitToken): seq<byte>
    requires Encodable(t)
  {
    [t.token, t.version, t.size % 256, t.size / 256, t.offset % 256, t.offset / 256]
  }

  /** The table of `ts` lies at `t`, with a six-byte zero terminator behind it. */
  ghost predicate TableAt(image: seq<byte>, t: nat, ts: seq<BitToken>) {
    && t + 6 * |ts| + 6 <= |image|
    && (forall k :: 0 <= k < |ts| ==> Encodable(ts[k]) && image[t + 6 * k..t + 6 * k + 6] == EmitToken(ts[k]))
    && forall i :: t + 6 * |ts| <= i < t + 6 * |ts| + 6 ==> image[i] == 0
  }

  /** What the emitter promises: at least four plausible tokens, the table inside the scan
      window and the 512-byte reach, nothing printable between header and table. */
  ghost predicate Emitted(image: seq<byte>, bit: nat, t: nat, ts: seq<BitToken>) {
    && IsFirstSignature(image, Some(bit)) && bit + 8 <= |image|
    && InWindow(image, bit, t) && |ts| >= 4 && t + 6 * (|ts| - 1) < bit + 512
    && TableAt(image, t, ts)
    && (forall k :: 0 <= k < |ts| ==> Plausible(ts[k], bit, |image|))
    && forall i :: bit + 4 <= i < t ==> !Graphic(image[i])
  }

  /** The accepted entries in terms of the image's bytes: six bytes each, one after the other, the
      two sizes low byte first, each with a printable token, a version of at most ten and a
      sub-table that ends inside the image. */
  ghost predicate EntryAt(image: seq<byte>, bit: nat, p: nat, t: BitToken) {
    && p + 6 <= |image| && p < bit + 512
    && t.token == image[p] && t.version == image[p + 1]
    && t.size == image[p + 2] as int + 256 * image[p + 3] as int
    && t.offset == image[p + 4] as int + 256 * image[p + 5] as int
    && 33 <= t.token <= 126 && t.version <= 10 && bit + t.offset + t.size <= |image|
  }

  /** The walk stops well where the image, the 512-byte reach or the table ends, and badly where
      six bytes are no such entry. */
  lemma {:induction false} WalkStops(image: seq<byte>, bit: nat, start: nat)
    ensures var c := Walk(image, bit, start);
      && c.end == start + 6 * |c.tokens|
      && (c.ok <==> c.end + 6 > |image| || c.end >= bit + 512 || image[c.end] == 0)
      && (!c.ok ==> forall t :: !EntryAt(image, bit, c.end, t))
    decreases |image| - start
  {
    if Walk(image, bit, start).tokens != [] { WalkStops(image, bit, start + 6); }
  }

  /** Up to there it reads entries. */
  lemma {:induction false} WalkReadsEntries(image: seq<byte>, bit: nat, start: nat, k: nat)
    requires k < |Walk(image, bit, start).tokens|
    ensures EntryAt(image, bit, start + 6 * k, Walk(image, bit, start).tokens[k])
    decreases k
  {
    if k > 0 { WalkReadsEntries(image, bit, start + 6, k - 1); }
  }

  /** Entries up to a zero byte are what the walk reads. */
  lemma {:induction false} WalkReadsUpToZero(image: seq<byte>, bit: nat, start: nat, ts: seq<BitToken>)
    requires start + 6 * |ts| < |image| && image[start + 6 * |ts|] == 0
    requires forall k :: 0 <= k < |ts| ==> EntryAt(image, bit, start + 6 * k, ts[k])
    ensures Walk(image, bit, start) == Chain(ts, true, start + 6 * |ts|)
    decreases |ts|
  {
    if ts != [] {
      assert EntryAt(image, bit, start + 6 * 0, ts[0]);
      forall k | 0 <= k < |ts[1..]| ensures EntryAt(image, bit, start + 6 + 6 * k, ts[1..][k]) {
        assert start + 6 + 6 * k == start + 6 * (k + 1);
      }
      WalkReadsUpToZero(image, bit, start + 6, ts[1..]);
      assert [ts[0]] + ts[1..] == ts;
    }
  }

  /** At least four entries in a row, and then a zero byte. */
  ghost predicate TableFrom(image: seq<byte>, bit: nat, start: nat, ts: seq<BitToken>) {
    && |ts| >= 4 && start + 6 * |ts| < |image| && image[start + 6 * |ts|] == 0
    && forall k :: 0 <= k < |ts| ==> EntryAt(image, bit, start + 6 * k, ts[k])
  }

  /** A start is looked at and accepted if and only if it lies four to sixty-three bytes behind the
      signature, with more than six bytes to come, and a table starts there. */
  lemma AcceptedIff(image: seq<byte>, bit: nat, start: nat)
    ensures InWindow(image, bit, start) && Accepted(image, bit, start) <==>
      bit + 4 <= start < bit + 64 && start + 6 < |image| && exists ts :: TableFrom(image, bit, start, ts)
  {
    WalkStops(image, bit, start);
    if Accepted(image, bit, start) {
      var ts := Walk(image, bit, start).tokens;
      forall k | 0 <= k < |ts| ensures EntryAt(image, bit, start + 6 * k, ts[k]) {
        WalkReadsEntries(image, bit, start, k);
      }
      assert TableFrom(image, bit, start, ts);
    }
    if ts :| TableFrom(image, bit, start, ts) { WalkReadsUpToZero(image, bit, start, ts); }
  }

  /** A header written behind bytes that hold no signature is found there, and its version byte is
      the one reported; with that the answer for an accepted image is its own header's. */
  lemma HeaderIsRead(pre: seq<byte>, version: byte, body: seq<byte>, r: Parsed)
    requires forall i: nat :: !SignatureAt(pre, i)
    requires ParsesTo(pre + [66, 73, 84, version] + body, r) && r.Ok?
    ensures r.summary.bitOffset == |pre| && r.summary.bitVersion == version
  {
    var image := pre + [66, 73, 84, version] + body;
    assert image[|pre|] == 66 && image[|pre| + 1] == 73 && image[|pre| + 2] == 84 && image[|pre| + 3] == version;
    forall i: nat | i < |pre| ensures !SignatureAt(image, i) {
      assert !SignatureAt(pre, i);
    }
    FirstSignatureIsUnique(image, |pre|);
  }

  lemma TokenRoundTrip(image: seq<byte>, p: nat, t: BitToken)
    requires Encodable(t) && p + 6 <= |image| && image[p..p + 6] == EmitToken(t)
    ensures TokenAt(image, p) == t
  {
    var s := image[p..p + 6];
    assert s[0] == image[p] && s[1] == image[p + 1] && s[2] == image[p + 2];
    assert s[3] == image[p + 3] && s[4] == image[p + 4] && s[5] == image[p + 5];
  }

  /** Walking from the table's start reads back exactly the tokens. */
  lemma {:induction false} WalkReadsTable(image: seq<byte>, bit: nat, t: nat, ts: seq<BitToken>)
    requires TableAt(image, t, ts) && t + 6 * (|ts| - 1) < bit + 512
    requires forall k :: 0 <= k < |ts| ==> Plausible(ts[k], bit, |image|)
    ensures Walk(image, bit, t) == Chain(ts, true, t + 6 * |ts|)
    decreases |ts|
  {
    if ts != [] {
      assert image[t + 6 * 0..t + 6 * 0 + 6] == EmitToken(ts[0]);
      TokenRoundTrip(image, t, ts[0]);
      var rest := ts[1..];
      forall k | 0 <= k < |rest|
        ensures Encodable(rest[k]) && image[t + 6 + 6 * k..t + 6 + 6 * k + 6] == EmitToken(rest[k])
      {
        assert rest[k] == ts[k + 1];
        assert t + 6 + 6 * k == t + 6 * (k + 1);
      }
      WalkReadsTable(image, bit, t + 6, rest);
      assert [ts[0]] + rest == ts;
    }
  }

  /** From anywhere inside the table or its terminator a chain is no longer than the
      entries that are left: the six zero bytes stop every alignment. */
  lemma {:induction false} InsideIsShort(image: seq<byte>, bit: nat, t: nat, ts: seq<BitToken>, p: nat)
    requires TableAt(image, t, ts) && t <= p < t + 6 * |ts| + 6
    ensures |Walk(image, bit, p).tokens| <= (t + 6 * |ts| + 5 - p) / 6
    decreases t + 6 * |ts| + 6 - p
  {
    if p < t + 6 * |ts| { InsideIsShort(image, bit, t, ts, p + 6); }
  }

  /** A chain of more than `n` tokens that starts in the window behind the terminator. */
  ghost predicate LongerBehind(image: seq<byte>, bit: nat, behind: nat, n: nat) {
    exists s: nat ::
      behind <= s && InWindow(image, bit, s) && Accepted(image, bit, s) && |Walk(image, bit, s).tokens| > n
  }

  lemma BestIsTable(image: seq<byte>, bit: nat, t: nat, ts: seq<BitToken>)
    requires Emitted(image, bit, t, ts)
    ensures IsBest(image, bit, t) <==> !LongerBehind(image, bit, t + 6 * |ts| + 6, |ts|)
    ensures Walk(image, bit, t).tokens == ts
  {
    WalkReadsTable(image, bit, t, ts);
    forall s: nat | InWindow(image, bit, s) && Accepted(image, bit, s) && s < t + 6 * |ts| + 6
      ensures |Walk(image, bit, s).tokens| <= |ts| && s >= t
    {
      if s >= t { InsideIsShort(image, bit, t, ts, s); }
    }
  }

  /** The parser inverts the emitter if and only if no longer chain starts in the part of
      the scan window behind the table's terminator; no misaligned start ever wins. */
  lemma ParserInvertsEmitterIff(image: seq<byte>, bit: nat, t: nat, ts: seq<BitToken>, r: Parsed)
    requires Emitted(image, bit, t, ts) && ParsesTo(image, r)
    ensures r == Ok(SummaryOf(image, bit, ts)) <==> !LongerBehind(image, bit, t + 6 * |ts| + 6, |ts|)
  {
    BestIsTable(image, bit, t, ts);
    FirstSignatureIsUnique(image, bit);
    if LongerBehind(image, bit, t + 6 * |ts| + 6, |ts|) {
      if r.Ok? {
        var start: nat :| IsBest(image, bit, start)
          && r.summary == SummaryOf(image, bit, Walk(image, bit, start).tokens);
        assert |r.summary.tokens| > |ts|;
      }
    } else {
      assert ParsesTo(image, Ok(SummaryOf(image, bit, ts)));
      AnswerIsUnique(image, r, Ok(SummaryOf(image, bit, ts)));
    }
  }

  /** Whatever base is chosen, the perf table sliced under it shows a known layout if and only
      if it does so under the BIT-relative or the image-relative base. */
  lemma LayoutSurfacesIff(image: seq<byte>, bit: nat, tokens: seq<BitToken>, p: BitToken)
    requires bit + 3 < |image| && FindToken(tokens, PERF) == Some(p)
    ensures var raw := TokenRaw(SummaryOf(image, bit, tokens), image, PERF);
      (raw.Some? && PerfLayoutByte(image, raw.value).Some?) <==> Resolves(image, bit, p) || Resolves(image, 0, p)
  {
  }

  /** What the parser gives for an emitted image with no longer chain behind the table. */
  lemma ParsedTable(image: seq<byte>, bit: nat, t: nat, ts: seq<BitToken>, r: Parsed)
    requires Emitted(image, bit, t, ts) && !LongerBehind(image, bit, t + 6 * |ts| + 6, |ts|) && ParsesTo(image, r)
    ensures bit + 3 < |image| && r == Ok(SummaryOf(image, bit, ts))
    ensures forall p :: p in ts ==> Plausible(p, bit, |image|)
  {
    ParserInvertsEmitterIff(image, bit, t, ts, r);
  }

  /** A flat perf table carries its layout at its second byte, or at its third if the second is
      no known one. */
  predicate FlatAt(image: seq<byte>, from: nat, size: nat, at: nat) {
    && (at == 1 || at == 2) && at < size && from + at < |image| && image[from + at] in KNOWN_PERF_LAYOUTS
    && (at == 2 ==> image[from + 1] !in KNOWN_PERF_LAYOUTS)
  }

  lemma FlatTableRead(image: seq<byte>, bit: nat, ts: seq<BitToken>, p: BitToken, at: nat)
    requires bit + 3 < |image| && FindToken(ts, PERF) == Some(p) && Plausible(p, bit, |image|)
    requires FlatAt(image, bit + p.offset, p.size, at)
    ensures var s, raw := SummaryOf(image, bit, ts), image[bit + p.offset..bit + p.offset + p.size];
      && s.dataBase == bit && TokenRaw(s, image, PERF) == Some(raw)
      && PerfLayoutByte(image, raw) == Some(image[bit + p.offset + at])
  {
    var raw := image[bit + p.offset..bit + p.offset + p.size];
    assert raw[1] == image[bit + p.offset + 1] && raw[at] == image[bit + p.offset + at];
    assert Slice(image, bit + p.offset, p.size) == Some(raw);
    assert PerfLayoutByte(image, raw) == Some(raw[at]);
    assert Resolves(image, bit, p);
  }

  /** End to end for a flat table: an emitted image whose perf table carries a known layout at
      its second or third byte keeps the BIT-relative base, and that table and layout come out
      again. */
  lemma FlatTableSurvives(image: seq<byte>, bit: nat, t: nat, ts: seq<BitToken>, p: BitToken, at: nat, r: Parsed)
    requires Emitted(image, bit, t, ts) && !LongerBehind(image, bit, t + 6 * |ts| + 6, |ts|) && ParsesTo(image, r)
    requires FindToken(ts, PERF) == Some(p) && FlatAt(image, bit + p.offset, p.size, at)
    ensures r.Ok? && r.summary.dataBase == bit && bit + p.offset + p.size <= |image|
    ensures var raw := image[bit + p.offset..bit + p.offset + p.size];
      && TokenRaw(r.summary, image, PERF) == Some(raw)
      && PerfLayoutByte(image, raw) == Some(image[bit + p.offset + at])
  {
    ParsedTable(image, bit, t, ts, r);
    FindTokenFinds(ts, PERF);
    FlatTableRead(image, bit, ts, p, at);
  }

  /** The first word of a pointer directory. */
  function FirstPointer(raw: seq<byte>): nat
    requires |raw| >= 4
  {
    Le16(raw[0], raw[1]) + 65536 * Le16(raw[2], raw[3])
  }

  /** A pointer directory at an image offset, its first target a table of a known layout. */
  predicate DirectoryAt(image: seq<byte>, p: BitToken, raw: seq<byte>) {
    && Slice(image, p.offset, p.size) == Some(raw)
    && |raw| >= 4 && raw[1] !in KNOWN_PERF_LAYOUTS && raw[2] !in KNOWN_PERF_LAYOUTS
    && FirstPointer(raw) < |image| && image[FirstPointer(raw)] in KNOWN_PERF_LAYOUTS
  }

  lemma DirectoryRead(image: seq<byte>, bit: nat, ts: seq<BitToken>, p: BitToken, raw: seq<byte>)
    requires bit > 0 && bit + 3 < |image| && FindToken(ts, PERF) == Some(p) && DirectoryAt(image, p, raw)
    ensures var s := SummaryOf(image, bit, ts);
      && (s.dataBase == 0 <==> !Resolves(image, bit, p))
      && (s.dataBase == 0 ==> TokenRaw(s, image, PERF) == Some(raw))
    ensures PerfLayoutByte(image, raw) == Some(image[FirstPointer(raw)])
  {
    assert PerfLayoutByte(image, raw) == Some(image[FirstPointer(raw)]);
    assert Resolves(image, 0, p);
    ImageBaseIff(image, bit, ts);
  }

  /** End to end for a pointer directory: it comes out, with the layout of the table it points
      at, if and only if the BIT-relative base resolves to no layout. */
  lemma DirectorySurvivesIff(image: seq<byte>, bit: nat, t: nat, ts: seq<BitToken>, p: BitToken,
                             raw: seq<byte>, r: Parsed)
    requires Emitted(image, bit, t, ts) && !LongerBehind(image, bit, t + 6 * |ts| + 6, |ts|) && ParsesTo(image, r)
    requires bit > 0 && FindToken(ts, PERF) == Some(p) && DirectoryAt(image, p, raw)
    ensures r.Ok? && (r.summary.dataBase == 0 <==> !Resolves(image, bit, p))
    ensures r.summary.dataBase == 0 ==> TokenRaw(r.summary, image, PERF) == Some(raw)
    ensures PerfLayoutByte(image, raw) == Some(image[FirstPointer(raw)])
  {
    ParsedTable(image, bit, t, ts, r);
    DirectoryRead(image, bit, ts, p, raw);
  }

  /** A table that reaches the end of the scan window is always read back. */
  lemma LongTableIsSafe(image: seq<byte>, bit: nat, t: nat, ts: seq<BitToken>)
    requires Emitted(image, bit, t, ts) && t + 6 * |ts| + 6 >= bit + 64
    ensures IsBest(image, bit, t) && Walk(image, bit, t).tokens == ts
  {
    BestIsTable(image, bit, t, ts);
  }

  /** An entry that stands in for any table: token 'A', everything else zero. */
  const PLAIN: BitToken := BitToken(65, 0, 0, 0)

  function DecoyByte(i: nat): byte {
    if i == 0 then 66 else if i == 1 then 73 else if i == 2 then 84
    else if i in {4, 10, 16, 22} || i in {34, 40, 46, 52, 58} then 65
    else 0
  }

  /** A header, a table of four entries and its terminator, then five more entries that
      happen to look like a table. */
  function Decoy(): (image: seq<byte>)
    ensures |image| == 72
  {
    seq(72, i requires 0 <= i < 72 => DecoyByte(i))
  }

  function Plains(n: nat): seq<BitToken> { seq(n, _ => PLAIN) }

  lemma DecoyEntry(t: nat, k: nat)
    requires (t == 4 && k < 4) || (t == 34 && k < 5)
    ensures Decoy()[t + 6 * k..t + 6 * k + 6] == [65, 0, 0, 0, 0, 0]
  {
    var p := t + 6 * k;
    assert DecoyByte(p) == 65;
    assert DecoyByte(p + 1) == 0 && DecoyByte(p + 2) == 0 && DecoyByte(p + 3) == 0;
    assert DecoyByte(p + 4) == 0 && DecoyByte(p + 5) == 0;
    var s := Decoy()[p..p + 6];
    assert s[0] == DecoyByte(p) && s[1] == DecoyByte(p + 1) && s[2] == DecoyByte(p + 2);
    assert s[3] == DecoyByte(p + 3) && s[4] == DecoyByte(p + 4) && s[5] == DecoyByte(p + 5);
  }

  lemma DecoyTable(t: nat, n: nat)
    requires (t == 4 && n == 4) || (t == 34 && n == 5)
    ensures TableAt(Decoy(), t, Plains(n))
  {
    forall k | 0 <= k < n ensures Decoy()[t + 6 * k..t + 6 * k + 6] == EmitToken(PLAIN) {
      DecoyEntry(t, k);
    }
  }

  lemma DecoySignature()
    ensures IsFirstSignature(Decoy(), Some(0))
  {
    assert SignatureAt(Decoy(), 0);
  }

  lemma DecoyEmitted()
    ensures Emitted(Decoy(), 0, 4, Plains(4))
  {
    DecoySignature();
    DecoyTable(4, 4);
  }

  lemma DecoyLonger()
    ensures LongerBehind(Decoy(), 0, 34, 4)
  {
    DecoyTable(34, 5);
    WalkReadsTable(Decoy(), 0, 34, Plains(5));
    assert Accepted(Decoy(), 0, 34) && InWindow(Decoy(), 0, 34);
  }

  /** The inverse does fail: on this image the parser prefers the five entries behind. */
  lemma DecoyWins(r: Parsed)
    requires ParsesTo(Decoy(), r)
    ensures Emitted(Decoy(), 0, 4, Plains(4))
    ensures r != Ok(SummaryOf(Decoy(), 0, Plains(4)))
  {
    DecoyEmitted();
    DecoyLonger();
    ParserInvertsEmitterIff(Decoy(), 0, 4, Plains(4), r);
  }
}
