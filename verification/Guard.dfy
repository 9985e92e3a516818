/** The G-Helper config guard (cli-common/src/ghelper_guard.rs): which keys it strips, and
    the backup, temporary file and rename it strips them with.  JSON text is an abstract
    codec; copying and renaming a file are atomic, writing one is not. */
module Guard {
  import opened Options

  // ------------------------------------------------------------------- mode keys

  predicate IsDigit(c: char) { '0' <= c <= '9' }

  predicate AllDigits(s: string) { forall i :: 0 <= i < |s| ==> IsDigit(s[i]) }

  /** The number a digit string spells. */
  function Spelled(s: string): nat
    requires AllDigits(s)
  {
    if s == "" then 0 else 10 * Spelled(s[..|s| - 1]) + (s[|s| - 1] as int - '0' as int)
  }

  /** Split at the last underscore. */
  function RsplitOnce(key: string): Option<(string, string)> {
    if key == "" then None
    else if key[|key| - 1] == '_' then Some((key[..|key| - 1], ""))
    else match RsplitOnce(key[..|key| - 1])
      case None => None
      case Some((base, tail)) => Some((base, tail + [key[|key| - 1]]))
  }

  function SplitModeKey(key: string): Option<(string, nat)> {
    match RsplitOnce(key)
    case None => None
    case Some((base, mode)) =>
      if base == "" || mode == "" || |mode| > 2 then None
      else if !AllDigits(mode) then None
      else Some((base, Spelled(mode)))
  }

  /** One or two decimal digits, the tens first. */
  predicate Spells(d: string, mode: nat) {
    && AllDigits(d)
    && ((|d| == 1 && mode == d[0] as int - '0' as int)
        || (|d| == 2 && mode == 10 * (d[0] as int - '0' as int) + (d[1] as int - '0' as int)))
  }

  lemma SpelledIff(d: string, mode: nat)
    requires AllDigits(d) && 1 <= |d| <= 2
    ensures Spelled(d) == mode <==> Spells(d, mode)
  {
    assert d[..|d| - 1] == if |d| == 1 then "" else [d[0]];
    assert Spelled([d[0]]) == d[0] as int - '0' as int by { assert [d[0]][..0] == ""; }
  }

  /** A non-empty base, an underscore, and a one- or two-digit mode. */
  ghost predicate IsModeKey(key: string, base: string, mode: nat) {
    base != "" && exists d: string :: Spells(d, mode) && key == base + "_" + d
  }

  lemma {:induction false} RsplitFinds(base: string, tail: string)
    requires '_' !in tail
    ensures RsplitOnce(base + "_" + tail) == Some((base, tail))
  {
    var key := base + "_" + tail;
    if tail == "" {
      assert key[..|key| - 1] == base;
    } else {
      var init := tail[..|tail| - 1];
      assert key[..|key| - 1] == base + "_" + init;
      RsplitFinds(base, init);
      assert init + [tail[|tail| - 1]] == tail;
    }
  }

  lemma {:induction false} RsplitJoins(key: string)
    ensures match RsplitOnce(key)
      case None => '_' !in key
      case Some((base, tail)) => key == base + "_" + tail && '_' !in tail
  {
    if key != "" && key[|key| - 1] != '_' {
      RsplitJoins(key[..|key| - 1]);
      assert key == key[..|key| - 1] + [key[|key| - 1]];
    } else if key != "" {
      assert key == key[..|key| - 1] + "_" + "";
    }
  }

  /** The split recognizes exactly the per-mode keys, with the right base and mode. */
  lemma SplitIsExact(key: string, base: string, mode: nat)
    ensures SplitModeKey(key) == Some((base, mode)) <==> IsModeKey(key, base, mode)
  {
    RsplitJoins(key);
    if IsModeKey(key, base, mode) {
      var d: string :| Spells(d, mode) && key == base + "_" + d;
      RsplitFinds(base, d);
      SpelledIff(d, mode);
    }
    if SplitModeKey(key) == Some((base, mode)) {
      SpelledIff(RsplitOnce(key).value.1, mode);
    }
  }

  const GPU_OC_KEYS: set<string> :=
    {"gpu_core", "gpu_memory", "gpu_clock_limit", "gpu_power", "gpu_temp", "gpu_boost"}

  const MAX_PERF_MODE: nat := 19

  predicate IsOcKey(key: string) {
    var s := SplitModeKey(key);
    s.Some? && s.value.1 <= MAX_PERF_MODE && s.value.0 in GPU_OC_KEYS
  }

  /** A per-mode GPU key is one of the six names, an underscore and a mode up to 19. */
  lemma OcKeyIff(key: string)
    ensures IsOcKey(key) <==>
      exists base, mode: nat ::
        && base in {"gpu_core", "gpu_memory", "gpu_clock_limit", "gpu_power", "gpu_temp", "gpu_boost"}
        && mode <= 19 && IsModeKey(key, base, mode)
  {
    if IsOcKey(key) {
      var (base, mode) := SplitModeKey(key).value;
      SplitIsExact(key, base, mode);
    }
    if base, mode: nat :| base in GPU_OC_KEYS && mode <= MAX_PERF_MODE && IsModeKey(key, base, mode) {
      SplitIsExact(key, base, mode);
    }
  }

  // ---------------------------------------------------------------- the config object

  type Config<!V> = map<string, V>

  ghost function OcPart<V>(data: Config<V>): Config<V> {
    map k | k in data && IsOcKey(k) :: data[k]
  }

  ghost function Stripped<V>(data: Config<V>): Config<V> {
    map k | k in data && !IsOcKey(k) :: data[k]
  }

  /** The loop over the object's entries, in whatever order they come. */
  method FindOcKeys<V>(data: Config<V>) returns (found: Config<V>)
    ensures found == OcPart(data)
  {
    found := map[];
    var todo := data.Keys;
    while todo != {}
      invariant todo <= data.Keys
      invariant forall k :: k in found <==> k in data && k !in todo && IsOcKey(k)
      invariant forall k :: k in found ==> found[k] == data[k]
      decreases todo
    {
      var key :| key in todo;
      if IsOcKey(key) { found := found[key := data[key]]; }
      todo := todo - {key};
    }
  }

  method RemoveKeys<V>(data: Config<V>, removed: Config<V>) returns (rest: Config<V>)
    requires removed == OcPart(data)
    ensures rest == Stripped(data)
  {
    rest := data;
    var todo := removed.Keys;
    while todo != {}
      invariant todo <= removed.Keys
      invariant forall k :: k in rest <==> k in data && (!IsOcKey(k) || k in todo)
      invariant forall k :: k in rest ==> rest[k] == data[k]
      decreases todo
    {
      var key :| key in todo;
      rest := rest - {key};
      todo := todo - {key};
    }
  }

  /** Text to object (`None` for text that is no JSON object) and back. */
  datatype Codec<!V> = Codec(parse: string -> Option<Config<V>>, render: Config<V> -> string)

  ghost predicate Lawful<V(!new)>(c: Codec<V>) {
    forall m :: c.parse(c.render(m)) == Some(m)
  }

  /** Exactly the per-mode GPU keys are gone, and nothing of the rest has changed. */
  lemma StripIsExact<V>(data: Config<V>, key: string)
    ensures key in Stripped(data) <==> key in data && !IsOcKey(key)
    ensures key in Stripped(data) ==> Stripped(data)[key] == data[key]
    ensures key in OcPart(data) <==> key in data && IsOcKey(key)
    ensures OcPart(Stripped(data)) == map[]
  {
  }

  // ------------------------------------------------------------------- the file steps

  datatype Snapshot = Snapshot(config: Option<string>, backup: Option<string>, tmp: Option<string>, readonly: bool)

  datatype Status = Removed | Clean | NoConfig | Error

  /** Which file operations succeed this time; `written` is how far a failing write gets. */
  datatype Luck = Luck(readable: bool, copies: bool, unfreezes: bool, writes: bool, written: nat,
                       renames: bool, refreezes: bool, removes: bool)

  /** The config is the old or the fully stripped one; stripped implies a backup; a backup
      that was there is unchanged, and one that was not is a copy of the old config. */
  ghost predicate CrashSafe<V>(c: Codec<V>, was: Snapshot, now: Snapshot) {
    && (now.config == was.config
        || (was.config.Some? && c.parse(was.config.value).Some?
            && now.config == Some(c.render(Stripped(c.parse(was.config.value).value)))
            && now.backup.Some?))
    && (was.backup.Some? ==> now.backup == was.backup)
    && (was.backup.None? && now.backup.Some? ==> now.backup == was.config)
  }

  /** One file operation, or one character of the only operation that is not atomic. */
  ghost predicate FileStep(a: Snapshot, b: Snapshot) {
    || (b.tmp.Some? && b == a.(tmp := b.tmp)
        && (b.tmp.value == "" || (a.tmp.Some? && |b.tmp.value| == |a.tmp.value| + 1 && a.tmp.value <= b.tmp.value)))
    || b == a.(tmp := None)
    || (a.config.Some? && a.backup.None? && b == a.(backup := a.config))
    || (a.tmp.Some? && !a.readonly && b == Snapshot(a.tmp, a.backup, None, false))
    || b == a.(readonly := b.readonly)
  }

  /** `history` leads from `was` to `now` by single file steps, and each state is crash-safe. */
  ghost predicate SafeRun<V>(c: Codec<V>, was: Snapshot, history: seq<Snapshot>, now: Snapshot) {
    var states := [was] + history;
    && states[|history|] == now
    && (forall i :: 0 <= i < |history| ==> FileStep(states[i], states[i + 1]))
    && (forall i :: 0 <= i <= |history| ==> CrashSafe(c, was, states[i]))
  }

  lemma RunExtends<V>(c: Codec<V>, was: Snapshot, history: seq<Snapshot>, a: Snapshot, b: Snapshot)
    requires SafeRun(c, was, history, a) && FileStep(a, b) && CrashSafe(c, was, b)
    ensures SafeRun(c, was, history + [b], b)
  {
    var states, longer := [was] + history, [was] + (history + [b]);
    assert longer == states + [b];
  }

  lemma RunStarts<V>(c: Codec<V>, was: Snapshot)
    ensures SafeRun(c, was, [], was)
  {
    assert ([was] + [])[0] == was;
  }

  class Disk<V> {
    var config: Option<string>
    var backup: Option<string>
    var tmp: Option<string>
    var readonly: bool
    /** Every state a crash could have left behind. */
    ghost var history: seq<Snapshot>

    ghost function Now(): Snapshot
      reads this
    {
      Snapshot(config, backup, tmp, readonly)
    }

    /** Note the state the last operation led to. */
    ghost method Record(c: Codec<V>, was: Snapshot, before: Snapshot)
      requires SafeRun(c, was, history, before) && FileStep(before, Now()) && CrashSafe(c, was, Now())
      modifies this`history
      ensures history == old(history) + [Now()] && SafeRun(c, was, history, Now())
    {
      RunExtends(c, was, history, before, Now());
      history := history + [Now()];
    }

    /** `fs::write` to the temporary file: character by character, perhaps not to the end. */
    method WriteTmp(text: string, luck: Luck, ghost c: Codec<V>, ghost was: Snapshot) returns (ok: bool)
      requires SafeRun(c, was, history, Now())
      modifies this`tmp, this`history
      ensures ok <==> luck.writes
      ensures ok ==> tmp == Some(text)
      ensures SafeRun(c, was, history, Now())
    {
      ghost var before;
      var n := if luck.writes || luck.written > |text| then |text| else luck.written;
      before := Now();
      tmp := Some("");
      Record(c, was, before);
      for i := 0 to n
        invariant tmp == Some(text[..i])
        invariant SafeRun(c, was, history, Now())
      {
        assert text[..i + 1] == text[..i] + [text[i]];
        before := Now();
        tmp := Some(text[..i] + [text[i]]);
        Record(c, was, before);
      }
      assert text[..|text|] == text;
      ok := luck.writes;
    }

    /** Unfreeze, write, rename; on failure freeze again what was frozen. A rename onto a
        read-only file fails. */
    method Replace(text: string, luck: Luck, ghost c: Codec<V>, ghost was: Snapshot) returns (ok: bool)
      requires SafeRun(c, was, history, Now())
      requires config == was.config && config.Some? && backup.Some?
      requires c.parse(config.value).Some? && text == c.render(Stripped(c.parse(config.value).value))
      modifies this`config, this`tmp, this`readonly, this`history
      ensures SafeRun(c, was, history, Now())
      ensures ok ==> config == Some(text) && tmp.None? && !readonly
      ensures ok <==> (!old(readonly) || luck.unfreezes) && luck.writes && luck.renames
      ensures !ok ==> config == old(config) && (luck.refreezes ==> readonly == old(readonly))
    {
      ghost var before;
      var unfroze := false;
      ok := true;
      if readonly {
        if luck.unfreezes {
          before := Now();
          readonly := false;
          Record(c, was, before);
          unfroze := true;
        } else {
          ok := false;
        }
      }
      if ok { ok := WriteTmp(text, luck, c, was); }
      if ok {
        ok := luck.renames;
        if ok {
          before := Now();
          config, tmp, readonly := tmp, None, false;
          Record(c, was, before);
        }
      }
      if !ok && unfroze && luck.refreezes {
        before := Now();
        readonly := true;
        Record(c, was, before);
      }
    }

    /** Back the config up unless a backup is there, replace it, and clean up after a failure. */
    method BackUpAndReplace(text: string, luck: Luck, ghost c: Codec<V>, ghost was: Snapshot) returns (ok: bool)
      requires was == Now() && SafeRun(c, was, history, Now())
      requires config.Some? && c.parse(config.value).Some? && text == c.render(Stripped(c.parse(config.value).value))
      modifies this
      ensures SafeRun(c, was, history, Now())
      ensures ok <==>
        (was.backup.Some? || luck.copies) && (!was.readonly || luck.unfreezes) && luck.writes && luck.renames
      ensures ok ==> Now() == Snapshot(Some(text), backup, None, false) && backup.Some?
      ensures !ok ==> config == was.config && (luck.refreezes ==> readonly == was.readonly)
      ensures !ok && luck.removes ==> tmp.None? || Now() == was
    {
      ghost var before;
      if backup.None? {
        if !luck.copies { return false; }
        before := Now();
        backup := config;
        Record(c, was, before);
      }
      ok := Replace(text, luck, c, was);
      if !ok && luck.removes {
        before := Now();
        tmp := None;
        Record(c, was, before);
      }
    }

    /** `strip_oc_keys`. */
    method StripOcKeys(c: Codec<V>, luck: Luck) returns (status: Status, removed: Config<V>)
      requires history == []
      modifies this
      ensures SafeRun(c, old(Now()), history, Now())
      ensures status == NoConfig <==> old(config).None?
      ensures status == Clean <==>
        && old(config).Some? && luck.readable && c.parse(old(config).value).Some?
        && OcPart(c.parse(old(config).value).value) == map[]
      ensures status == Removed <==>
        && old(config).Some? && luck.readable && c.parse(old(config).value).Some?
        && OcPart(c.parse(old(config).value).value) != map[]
        && (old(backup).Some? || luck.copies) && (!old(readonly) || luck.unfreezes) && luck.writes && luck.renames
      ensures status == Removed ==>
        && c.parse(old(config).value).Some? && removed == OcPart(c.parse(old(config).value).value) != map[]
        && config == Some(c.render(Stripped(c.parse(old(config).value).value))) && backup.Some?
      ensures status == Removed ==> tmp.None? && !readonly
      ensures status != Removed ==> config == old(config) && (luck.refreezes ==> readonly == old(readonly))
      ensures status != Removed && luck.removes ==> tmp.None? || Now() == old(Now())
      ensures status == NoConfig || status == Clean ==> Now() == old(Now())
      ensures old(config).Some? && c.parse(old(config).value).None? ==> status == Error && Now() == old(Now())
    {
      ghost var was := Now();
      RunStarts(c, was);
      removed := map[];
      if config.None? { return NoConfig, map[]; }
      if !luck.readable { return Error, map[]; }
      var parsed := c.parse(config.value);
      if parsed.None? { return Error, map[]; }
      var data := parsed.value;
      removed := FindOcKeys(data);
      if |removed| == 0 { return Clean, map[]; }
      var rest := RemoveKeys(data, removed);
      var ok := BackUpAndReplace(c.render(rest), luck, c, was);
      status := if ok then Removed else Error;
    }
  }

  /** What a strip leaves behind parses to a config without per-mode GPU keys, so a second
      run has nothing to do: its `Clean` condition holds. */
  lemma SecondRunIsClean<V(!new)>(c: Codec<V>, text: string)
    requires Lawful(c) && c.parse(text).Some?
    ensures var after := c.parse(c.render(Stripped(c.parse(text).value)));
      after == Some(Stripped(c.parse(text).value)) && OcPart(after.value) == map[]
  {
    StripIsExact(c.parse(text).value, "");
  }

  /** Two runs in a row, the second reading the file the first one wrote. */
  method StripTwice<V(!new)>(d: Disk<V>, c: Codec<V>, luck: Luck, again: Luck) returns (first: Status, second: Status)
    requires Lawful(c) && d.history == [] && again.readable
    modifies d
    ensures first == Removed ==> old(d.config).Some? && c.parse(old(d.config).value).Some?
    ensures first == Removed ==>
      second == Clean && d.config == Some(c.render(Stripped(c.parse(old(d.config).value).value)))
    ensures first == Clean ==> second == Clean && d.Now() == old(d.Now())
  {
    var removed;
    first, removed := d.StripOcKeys(c, luck);
    if first == Removed { SecondRunIsClean(c, old(d.config).value); }
    d.history := [];
    second, removed := d.StripOcKeys(c, again);
  }
}
