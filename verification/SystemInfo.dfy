/** The system collector: memory, temperature, load, the throttle log and the choice of thermal zone. */
module SystemInfo {
  import opened Clock
  import opened Results
  import opened Text
  import opened LastWins
  import opened Transitions
  import EarlyExit

  const TWO_64: int := 0x1_0000_0000_0000_0000
  const TWO_54: int := 0x40_0000_0000_0000

  // ----- /proc/meminfo

  const TOTAL := "MemTotal:"
  const AVAILABLE := "MemAvailable:"

  /** The kB value of a meminfo line. */
  function MeminfoValue(line: string): Option<uint64> {
    var colon := IndexOf(line, ':');
    if colon < 0 then None
    else
      var fields := Fields(line[colon + 1..]);
      if fields == [] then None else ParseUint(fields[0])
  }

  /** The key and the value of a line that gives one of the two values. */
  function MemoryEntry(line: string): Option<(string, uint64)> {
    var key := if TOTAL <= line then TOTAL else if AVAILABLE <= line then AVAILABLE else "";
    if key == "" then None
    else
      match MeminfoValue(line)
      case Some(v) => Some((key, v))
      case None => None
  }

  function TotalIn(lines: seq<string>): Option<uint64> {
    Last(lines, MemoryEntry, TOTAL)
  }

  function AvailableIn(lines: seq<string>): Option<uint64> {
    Last(lines, MemoryEntry, AVAILABLE)
  }

  /** Both values have been read. */
  predicate Complete(lines: seq<string>) {
    TotalIn(lines).Some? && AvailableIn(lines).Some?
  }

  /** The length of the shortest complete prefix, or of the whole text. */
  function StopAt(lines: seq<string>): nat {
    EarlyExit.StopAt(lines, Complete)
  }

  datatype MemoryError = TotalMissing | AvailableMissing

  datatype Memory = Memory(totalBytes: uint64, usedBytes: uint64) | Missing(error: MemoryError)

  /** Multiplication by 1024 in 64 bits. */
  function ToBytes(kb: uint64): uint64 {
    kb * 1024 % TWO_64
  }

  function MemoryFrom(total: Option<uint64>, available: Option<uint64>): Memory {
    match (total, available)
    case (None, _) => Missing(TotalMissing)
    case (Some(_), None) => Missing(AvailableMissing)
    case (Some(t), Some(a)) => Memory(ToBytes(t), ToBytes(if a > t then 0 else t - a))
  }

  /** The result for a text: from the last values in its shortest complete prefix. */
  function MemoryOf(lines: seq<string>): Memory {
    var read := lines[..StopAt(lines)];
    MemoryFrom(TotalIn(read), AvailableIn(read))
  }

  /** What a line makes of the total read so far. */
  function TotalAfter(line: string, before: Option<uint64>): Option<uint64> {
    if TOTAL <= line && MeminfoValue(line).Some? then MeminfoValue(line) else before
  }

  function AvailableAfter(line: string, before: Option<uint64>): Option<uint64> {
    if !(TOTAL <= line) && AVAILABLE <= line && MeminfoValue(line).Some? then MeminfoValue(line) else before
  }

  lemma ReadMore(lines: seq<string>, line: string)
    ensures TotalIn(lines + [line]) == TotalAfter(line, TotalIn(lines))
    ensures AvailableIn(lines + [line]) == AvailableAfter(line, AvailableIn(lines))
  {
    assert TOTAL[3] != AVAILABLE[3];
    LastMore(lines, line, MemoryEntry, TOTAL);
    LastMore(lines, line, MemoryEntry, AVAILABLE);
  }

  /** What reading line `i` changes while the lines before it are not complete. */
  lemma ReadNext(lines: seq<string>, i: nat)
    requires i < |lines| && StopAt(lines[..i]) == i && !Complete(lines[..i])
    ensures TotalIn(lines[..i + 1]) == TotalAfter(lines[i], TotalIn(lines[..i]))
    ensures AvailableIn(lines[..i + 1]) == AvailableAfter(lines[i], AvailableIn(lines[..i]))
    ensures StopAt(lines[..i + 1]) == i + 1
    ensures Complete(lines[..i + 1]) ==> StopAt(lines) == i + 1
  {
    EarlyExit.OneMoreLine(lines, i, Complete);
    ReadMore(lines[..i], lines[i]);
  }

  /** The loop body: a line that gives one of the two values replaces it. */
  method ReadLine(line: string, totalSoFar: Option<uint64>, availableSoFar: Option<uint64>)
    returns (total: Option<uint64>, available: Option<uint64>)
    ensures total == TotalAfter(line, totalSoFar) && available == AvailableAfter(line, availableSoFar)
  {
    total, available := totalSoFar, availableSoFar;
    if TOTAL <= line {
      var v := MeminfoValue(line);
      if v.Some? {
        total := v;
      }
    } else if AVAILABLE <= line {
      var v := MeminfoValue(line);
      if v.Some? {
        available := v;
      }
    }
  }

  /** The loop: it stops at the end of the shortest complete prefix. */
  method ScanMeminfo(lines: seq<string>) returns (total: Option<uint64>, available: Option<uint64>)
    ensures total == TotalIn(lines[..StopAt(lines)]) && available == AvailableIn(lines[..StopAt(lines)])
  {
    total, available := None, None;
    for i := 0 to |lines|
      invariant total == TotalIn(lines[..i]) && available == AvailableIn(lines[..i])
      invariant StopAt(lines[..i]) == i && !Complete(lines[..i])
    {
      ReadNext(lines, i);
      total, available := ReadLine(lines[i], total, available);
      if total.Some? && available.Some? {
        return;
      }
    }
    assert lines[..|lines|] == lines;
  }

  method ParseMeminfo(raw: string) returns (m: Memory)
    ensures m == MemoryOf(ScanLines(raw))
  {
    var total, available := ScanMeminfo(ScanLines(raw));
    if total.None? {
      return Missing(TotalMissing);
    }
    if available.None? {
      return Missing(AvailableMissing);
    }
    var used := if available.value > total.value then 0 else total.value - available.value;
    return Memory(ToBytes(total.value), ToBytes(used));
  }

  /** The scan fails exactly when one of the two values can never be read. */
  lemma MissingExactlyWhen(lines: seq<string>)
    ensures MemoryOf(lines).Missing? <==> !Complete(lines)
    ensures MemoryOf(lines) == Missing(TotalMissing) <==> TotalIn(lines).None?
  {
    var n := StopAt(lines);
    EarlyExit.StopIsShortest(lines, Complete);
    if n < |lines| {
      CompleteExtends(lines[..n], lines[n..]);
      assert lines == lines[..n] + lines[n..];
    } else {
      assert lines[..n] == lines;
    }
  }

  lemma CompleteExtends(a: seq<string>, b: seq<string>)
    requires Complete(a)
    ensures Complete(a + b)
  {
    LastConcat(a, b, MemoryEntry, TOTAL);
    LastConcat(a, b, MemoryEntry, AVAILABLE);
  }

  /**
   The total is exact precisely below 2^54 kB; then nothing wraps around, the used part is at most the
   total, and used plus available, clamped to the total, is the total.
   */
  lemma MemoryIsExact(total: uint64, available: uint64)
    ensures
      var m := MemoryFrom(Some(total), Some(available));
      && (m.totalBytes == total * 1024 <==> total < TWO_54)
      && (total < TWO_54 ==>
            m.usedBytes <= m.totalBytes
            && m.usedBytes + (if available < total then available else total) * 1024 == m.totalBytes)
  {
    var used := if available > total then 0 else total - available;
    if total < TWO_54 {
      assert 0 <= total * 1024 < TWO_64 && 0 <= used * 1024 < TWO_64;
    }
  }

  // ----- A printed /proc/meminfo

  /** A line as the kernel prints it: the name, blanks, and a number of kB. */
  function KbLine(key: string, gap: string, digits: string): string {
    key + (gap + (digits + " kB"))
  }

  lemma KbLineParses(name: string, gap: string, digits: string)
    requires ':' !in name && Blank(gap) && ParseUint(digits).Some?
    ensures MeminfoValue(KbLine(name + ":", gap, digits)) == ParseUint(digits)
  {
    IndexOfFirst(name, ':', gap + (digits + " kB"));
    DigitsAreToken(digits);
    FieldsSkip(gap, digits + " kB");
    FieldsCons(digits, " kB");
  }

  lemma TotalLineParses(gap: string, digits: string)
    requires Blank(gap) && ParseUint(digits).Some?
    ensures MemoryEntry(KbLine(TOTAL, gap, digits)) == Some((TOTAL, ParseUint(digits).value))
  {
    KbLineParses("MemTotal", gap, digits);
    assert TOTAL == "MemTotal" + ":";
    assert TOTAL <= KbLine(TOTAL, gap, digits);
  }

  lemma AvailableLineParses(gap: string, digits: string)
    requires Blank(gap) && ParseUint(digits).Some?
    ensures MemoryEntry(KbLine(AVAILABLE, gap, digits)) == Some((AVAILABLE, ParseUint(digits).value))
  {
    KbLineParses("MemAvailable", gap, digits);
    assert AVAILABLE == "MemAvailable" + ":";
    assert AVAILABLE <= KbLine(AVAILABLE, gap, digits);
    assert KbLine(AVAILABLE, gap, digits)[3] == 'A' && TOTAL[3] == 'T';
  }

  /** No line gives a value for `key`. */
  predicate NoValueFor(lines: seq<string>, key: string) {
    forall i :: 0 <= i < |lines| ==> MemoryEntry(lines[i]).None? || MemoryEntry(lines[i]).value.0 != key
  }

  lemma {:induction false} NoValue(lines: seq<string>, key: string)
    requires NoValueFor(lines, key)
    ensures Last(lines, MemoryEntry, key) == None
  {
    if lines != [] {
      NoValue(lines[..|lines| - 1], key);
    }
  }

  /** The first line with an available value, after one with a total, ends the scan. */
  lemma ScanEnds(front: seq<string>, line: string, after: seq<string>, total: uint64, available: uint64)
    requires TotalIn(front) == Some(total) && NoValueFor(front, AVAILABLE) && MemoryEntry(line) == Some((AVAILABLE, available))
    ensures MemoryOf(front + [line] + after) == MemoryFrom(Some(total), Some(available))
  {
    var lines := front + [line] + after;
    var n := |front| + 1;
    assert lines[..n] == front + [line];
    LastMore(front, line, MemoryEntry, TOTAL);
    LastMore(front, line, MemoryEntry, AVAILABLE);
    forall k | 0 <= k < n
      ensures !Complete(lines[..k])
    {
      assert lines[..k] == front[..k];
      NoValue(front[..k], AVAILABLE);
    }
    EarlyExit.StopAtIs(lines, n, Complete);
  }

  /** The lines of a meminfo file as far as they matter: a total, an available value, and others around them. */
  datatype MemFile = MemFile(
    before: seq<string>, totalGap: string, total: string,
    between: seq<string>, availableGap: string, available: string, after: seq<string>)
  {
    /** Nothing before the available line gives an available value, nothing between the two a total; the rest is free. */
    predicate Valid() {
      && Blank(totalGap) && Blank(availableGap) && ParseUint(total).Some? && ParseUint(available).Some?
      && NoValueFor(before, AVAILABLE) && NoValueFor(between, AVAILABLE) && NoValueFor(between, TOTAL)
    }

    function Front(): seq<string> {
      before + [KbLine(TOTAL, totalGap, total)] + between
    }

    function Lines(): seq<string> {
      Front() + [KbLine(AVAILABLE, availableGap, available)] + after
    }
  }

  lemma FrontGives(f: MemFile)
    requires f.Valid()
    ensures TotalIn(f.Front()) == ParseUint(f.total) && NoValueFor(f.Front(), AVAILABLE)
  {
    var line := KbLine(TOTAL, f.totalGap, f.total);
    TotalLineParses(f.totalGap, f.total);
    LastMore(f.before, line, MemoryEntry, TOTAL);
    NoValue(f.between, TOTAL);
    LastConcat(f.before + [line], f.between, MemoryEntry, TOTAL);
    assert |TOTAL| != |AVAILABLE|;
  }

  /** Reading a printed file gives its two values, whatever other lines it has, and whatever follows them. */
  lemma MeminfoRoundTrip(f: MemFile)
    requires f.Valid()
    ensures MemoryOf(f.Lines()) == MemoryFrom(ParseUint(f.total), ParseUint(f.available))
    ensures PlainLines(f.Lines()) ==> MemoryOf(ScanLines(Unlines(f.Lines()))) == MemoryOf(f.Lines())
  {
    FrontGives(f);
    AvailableLineParses(f.availableGap, f.available);
    ScanEnds(f.Front(), KbLine(AVAILABLE, f.availableGap, f.available), f.after,
             ParseUint(f.total).value, ParseUint(f.available).value);
    if PlainLines(f.Lines()) {
      ScanUnlines(f.Lines());
    }
  }

  lemma NextDigit(s: string, k: nat, n: nat)
    requires k < |s| && IsDigit(s[k]) && AllDigits(s[..k]) && Decimal(s[..k]) == n
    ensures AllDigits(s[..k + 1]) && Decimal(s[..k + 1]) == n * 10 + DigitValue(s[k])
  {
    assert s[..k + 1][..k] == s[..k];
  }

  lemma FirstDigits(s: string)
    requires s == "18014398509481984"
    ensures AllDigits(s[..3]) && Decimal(s[..3]) == 180
  {
    NextDigit(s, 0, 0);
    NextDigit(s, 1, 1);
    NextDigit(s, 2, 18);
  }

  lemma MoreDigits(s: string)
    requires s == "18014398509481984"
    ensures AllDigits(s[..9]) && Decimal(s[..9]) == 180143985
  {
    FirstDigits(s);
    NextDigit(s, 3, 180);
    NextDigit(s, 4, 1801);
    NextDigit(s, 5, 18014);
    NextDigit(s, 6, 180143);
    NextDigit(s, 7, 1801439);
    NextDigit(s, 8, 18014398);
  }

  lemma AllTheDigits(s: string)
    requires s == "18014398509481984"
    ensures AllDigits(s) && Decimal(s) == TWO_54
  {
    MoreDigits(s);
    NextDigit(s, 9, 180143985);
    NextDigit(s, 10, 1801439850);
    NextDigit(s, 11, 18014398509);
    NextDigit(s, 12, 180143985094);
    NextDigit(s, 13, 1801439850948);
    NextDigit(s, 14, 18014398509481);
    NextDigit(s, 15, 180143985094819);
    NextDigit(s, 16, 1801439850948198);
    assert s[..17] == s;
  }

  /** A file with a total of 2^54 kB and nothing available reads as one without memory. */
  lemma TotalWrapsAround(f: MemFile)
    requires f.Valid() && f.total == "18014398509481984" && f.available == "0"
    ensures MemoryOf(f.Lines()) == Memory(0, 0)
  {
    AllTheDigits(f.total);
    MeminfoRoundTrip(f);
    assert "0"[..0] == "";
    assert TWO_54 * 1024 == TWO_64;
  }

  // ----- One tick

  const THROTTLE_CELSIUS: real := 80.0

  function LoadOf(raw: string, parse: FloatParser): Option<(real, real, real)> {
    var fields := Fields(raw);
    if |fields| < 3 then None
    else
      match (parse(fields[0]), parse(fields[1]), parse(fields[2]))
      case (Some(l1), Some(l5), Some(l15)) => Some((l1, l5, l15))
      case _ => None
  }

  /** Millidegrees, as an integer, to degrees. */
  function TempOf(raw: string): Option<real> {
    match Atoi(Trim(raw))
    case Some(n) => Some(n as real / 1000.0)
    case None => None
  }

  /** The first three fields of /proc/loadavg, in their order. */
  lemma LoadReads(one: string, five: string, fifteen: string, rest: string, parse: FloatParser)
    requires Token(one) && Token(five) && Token(fifteen) && (rest == "" || IsSpace(rest[0]))
    ensures
      var read := LoadOf(one + (" " + (five + (" " + (fifteen + rest)))), parse);
      if parse(one).None? || parse(five).None? || parse(fifteen).None? then read == None
      else read == Some((parse(one).value, parse(five).value, parse(fifteen).value))
  {
    FirstThreeFields(one, five, fifteen, rest);
  }

  /** Whatever is printed in millidegrees, with white space around it, reads as a thousandth of it in degrees. */
  lemma TempReads(before: string, n: int64, after: string)
    requires Blank(before) && Blank(after)
    ensures TempOf(before + RenderInt(n) + after) == Some(n as real / 1000.0)
  {
    RenderIntIsToken(n);
    TrimPadded(before, RenderInt(n), after);
    AtoiRendered(n);
  }

  datatype Part = LoadPart | MemoryPart | TempPart

  datatype Info = Info(load: (real, real, real), totalBytes: uint64, usedBytes: uint64, tempCelsius: real, throttled: bool)

  datatype Snapshot = Snapshot(at: Time, info: Info, failed: seq<Part>)

  /** The clock reading of one tick, and what its three reads return. */
  datatype Readings = Readings(at: Time, load: Result<string>, memory: Result<string>, temp: Result<string>) {
    function Load(parse: FloatParser): Option<(real, real, real)> {
      match load case Ok(raw) => LoadOf(raw, parse) case Err(_) => None
    }

    function Mem(): Memory {
      match memory case Ok(raw) => MemoryOf(ScanLines(raw)) case Err(_) => Missing(TotalMissing)
    }

    function Temp(): Option<real> {
      match temp case Ok(raw) => TempOf(raw) case Err(_) => None
    }

    predicate Throttled() {
      Temp().Some? && Temp().value >= THROTTLE_CELSIUS
    }
  }

  /** The throttle flag is set exactly from 80 degrees, 80000 millidegrees, on; never without a reading. */
  lemma ThrottledExactlyWhen(r: Readings, before: string, n: int64, after: string)
    requires Blank(before) && Blank(after)
    ensures r.temp == Ok(before + RenderInt(n) + after) ==> (r.Throttled() <==> n >= 80_000)
    ensures r.temp.Err? ==> !r.Throttled()
  {
    TempReads(before, n, after);
  }

  class Collector {
    const parse: FloatParser
    var snap: Snapshot

    constructor (parse: FloatParser, clock: Time)
      ensures this.parse == parse
      ensures snap == Snapshot(clock, Info((0.0, 0.0, 0.0), 0, 0, 0.0, false), [])
    {
      this.parse := parse;
      snap := Snapshot(clock, Info((0.0, 0.0, 0.0), 0, 0, 0.0, false), []);
    }

    /**
     `tick`: the snapshot has the time the tick began; every part is shown, or is zero and reported as
     failed, whatever happens to the others.
     */
    method Tick(r: Readings)
      modifies this
      ensures snap.at == r.at
      ensures snap.info.load == (match r.Load(parse) case Some(l) => l case None => (0.0, 0.0, 0.0))
      ensures (snap.info.totalBytes, snap.info.usedBytes) == (match r.Mem() case Memory(t, u) => (t, u) case Missing(_) => (0, 0))
      ensures snap.info.tempCelsius == (match r.Temp() case Some(t) => t case None => 0.0)
      ensures snap.info.throttled == r.Throttled()
      ensures LoadPart in snap.failed <==> r.Load(parse).None?
      ensures MemoryPart in snap.failed <==> r.Mem().Missing?
      ensures TempPart in snap.failed <==> r.Temp().None?
    {
      var now := r.at;
      var info := Info((0.0, 0.0, 0.0), 0, 0, 0.0, false);
      var failed: seq<Part> := [];
      var load := if r.load.Ok? then LoadOf(r.load.value, parse) else None;
      if load.Some? {
        info := info.(load := load.value);
      } else {
        failed := failed + [LoadPart];
      }
      var memory := Missing(TotalMissing);
      if r.memory.Ok? {
        memory := ParseMeminfo(r.memory.value);
      }
      if memory.Memory? {
        info := info.(totalBytes := memory.totalBytes, usedBytes := memory.usedBytes);
      } else {
        failed := failed + [MemoryPart];
      }
      var temp := if r.temp.Ok? then TempOf(r.temp.value) else None;
      if temp.Some? {
        info := info.(tempCelsius := temp.value, throttled := temp.value >= THROTTLE_CELSIUS);
      } else {
        failed := failed + [TempPart];
      }
      snap := Snapshot(now, info, failed);
    }

    /** `Run` for one seed tick and the timer ticks after it; the log lines are true for throttled, false for cleared. */
    method Run(seed: Readings, ticks: seq<Readings>) returns (log: seq<bool>)
      modifies this
      ensures log == ThrottleLog(ticks) && Alternating(log, ticks != [] && ticks[|ticks| - 1].Throttled())
      ensures
        var last := if ticks == [] then seed else ticks[|ticks| - 1];
        snap.at == last.at && snap.info.throttled == last.Throttled()
    {
      Tick(seed);
      log := [];
      var prevThrottled := false;
      for i := 0 to |ticks|
        invariant log == ThrottleLog(ticks[..i])
        invariant prevThrottled == (i > 0 && ticks[i - 1].Throttled())
        invariant
          var last := if i == 0 then seed else ticks[i - 1];
          snap.at == last.at && snap.info.throttled == last.Throttled()
      {
        Tick(ticks[i]);
        assert ticks[..i + 1][..i] == ticks[..i];
        if snap.info.throttled != prevThrottled {
          log := log + [snap.info.throttled];
          prevThrottled := snap.info.throttled;
        }
      }
      assert ticks[..|ticks|] == ticks;
      ThrottleLogAlternates(ticks);
    }
  }

  /** One line for every tick whose flag differs from the tick before; the flag before the first tick is false. */
  function ThrottleLog(ticks: seq<Readings>): seq<bool> {
    if ticks == [] then []
    else
      var n := |ticks| - 1;
      Record(ThrottleLog(ticks[..n]), n > 0 && ticks[n - 1].Throttled(), ticks[n].Throttled())
  }

  /** Lines alternate, starting with throttled, and the last one tells the current state. */
  lemma {:induction false} ThrottleLogAlternates(ticks: seq<Readings>)
    ensures Alternating(ThrottleLog(ticks), ticks != [] && ticks[|ticks| - 1].Throttled())
  {
    if ticks != [] {
      var n := |ticks| - 1;
      ThrottleLogAlternates(ticks[..n]);
      RecordAlternates(ThrottleLog(ticks[..n]), n > 0 && ticks[n - 1].Throttled(), ticks[n].Throttled());
    }
  }

  // ----- The thermal zone

  const CPU_THERMAL := "cpu-thermal"
  const BCM_THERMAL := "bcm2712_thermal"

  /** The trimmed types of the zones in directory order; None for one that cannot be read. */
  type Zones = seq<Option<string>>

  predicate Contains(s: string, part: string) {
    exists i :: 0 <= i <= |s| && part <= s[i..]
  }

  predicate IsExact(z: Option<string>) {
    z == Some(CPU_THERMAL)
  }

  predicate IsBcm(z: Option<string>) {
    z == Some(BCM_THERMAL)
  }

  predicate MentionsCpu(z: Option<string>) {
    z.Some? && Contains(ToLower(z.value), "cpu")
  }

  predicate IsFallbackCandidate(z: Option<string>) {
    IsBcm(z) || MentionsCpu(z)
  }

  function First(zones: Zones, p: Option<string> -> bool): (i: int)
    ensures -1 <= i < |zones|
    ensures i >= 0 ==> p(zones[i])
    ensures forall k :: 0 <= k < (if i < 0 then |zones| else i) ==> !p(zones[k])
  {
    if zones == [] then -1
    else if p(zones[0]) then 0
    else
      var i := First(zones[1..], p);
      assert forall k :: 0 < k < |zones| ==> zones[k] == zones[1..][k - 1];
      if i < 0 then -1 else i + 1
  }

  /** The first cpu-thermal zone anywhere, else the first other candidate; -1 for the fallback. */
  function Chosen(zones: Zones): int {
    if First(zones, IsExact) >= 0 then First(zones, IsExact) else First(zones, IsFallbackCandidate)
  }

  /** The letters of cpu, in any case, stand at index `i`. */
  predicate CpuAt(s: string, i: nat) {
    i + 3 <= |s| && (s[i] == 'c' || s[i] == 'C') && (s[i + 1] == 'p' || s[i + 1] == 'P') && (s[i + 2] == 'u' || s[i + 2] == 'U')
  }

  /** A zone to fall back on when none is the CPU's own. */
  ghost predicate Second(z: Option<string>) {
    z == Some("bcm2712_thermal") || (z.Some? && exists i: nat :: CpuAt(z.value, i))
  }

  /** The first zone of type cpu-thermal wherever it stands, else the first one to fall back on; -1 without either. */
  ghost predicate PicksZone(zones: Zones, choice: int) {
    if Some("cpu-thermal") in zones then
      0 <= choice < |zones| && zones[choice] == Some("cpu-thermal") && Some("cpu-thermal") !in zones[..choice]
    else
      || (0 <= choice < |zones| && Second(zones[choice]) && forall k :: 0 <= k < choice ==> !Second(zones[k]))
      || (choice == -1 && forall k :: 0 <= k < |zones| ==> !Second(zones[k]))
  }

  lemma CpuInAnyCase(s: string, i: nat)
    requires i <= |s|
    ensures "cpu" <= ToLower(s)[i..] <==> CpuAt(s, i)
  {
    if i + 3 <= |s| {
      var t := ToLower(s)[i..];
      assert t[0] == LowerChar(s[i]) && t[1] == LowerChar(s[i + 1]) && t[2] == LowerChar(s[i + 2]);
    }
  }

  lemma MentionsInAnyCase(s: string)
    ensures Contains(ToLower(s), "cpu") <==> exists i: nat :: CpuAt(s, i)
  {
    forall i: nat | i <= |s|
      ensures "cpu" <= ToLower(s)[i..] <==> CpuAt(s, i)
    {
      CpuInAnyCase(s, i);
    }
    if i: nat :| CpuAt(s, i) {
      assert "cpu" <= ToLower(s)[i..];
    }
  }

  lemma CandidateIsSecond(z: Option<string>)
    ensures IsFallbackCandidate(z) <==> Second(z)
  {
    if z.Some? {
      MentionsInAnyCase(z.value);
    }
  }

  lemma ChosenPicksZone(zones: Zones)
    ensures PicksZone(zones, Chosen(zones))
  {
    forall k | 0 <= k < |zones|
      ensures IsFallbackCandidate(zones[k]) <==> Second(zones[k])
    {
      CandidateIsSecond(zones[k]);
    }
  }

  method SelectThermalZone(zones: Zones) returns (choice: int)
    ensures choice == Chosen(zones)
    ensures PicksZone(zones, choice)
  {
    ChosenPicksZone(zones);
    var cpuContains := -1;
    for i := 0 to |zones|
      invariant forall k :: 0 <= k < i ==> !IsExact(zones[k])
      invariant cpuContains == -1 ==> forall k :: 0 <= k < i ==> !IsFallbackCandidate(zones[k])
      invariant cpuContains != -1 ==>
        0 <= cpuContains < i && IsFallbackCandidate(zones[cpuContains])
        && forall k :: 0 <= k < cpuContains ==> !IsFallbackCandidate(zones[k])
    {
      if zones[i].None? {
        continue;
      }
      var t := zones[i].value;
      if t == CPU_THERMAL {
        return i;
      } else if t == BCM_THERMAL {
        if cpuContains == -1 {
          cpuContains := i;
        }
      } else if Contains(ToLower(t), "cpu") {
        if cpuContains == -1 {
          cpuContains := i;
        }
      }
    }
    return cpuContains;
  }

  /** The documented order: cpu-thermal, then bcm2712_thermal, then any type that mentions cpu. */
  function Documented(zones: Zones): int {
    if First(zones, IsExact) >= 0 then First(zones, IsExact)
    else if First(zones, IsBcm) >= 0 then First(zones, IsBcm)
    else First(zones, MentionsCpu)
  }

  /**
   The loop keeps to the documented order exactly when there is a cpu-thermal zone, or no
   bcm2712_thermal zone, or no zone before the first of those that mentions cpu.
   */
  lemma DocumentedExactlyWhen(zones: Zones)
    ensures Chosen(zones) == Documented(zones) <==>
      || First(zones, IsExact) >= 0
      || First(zones, IsBcm) < 0
      || First(zones[..First(zones, IsBcm)], MentionsCpu) < 0
  {
    var bcm := First(zones, IsBcm);
    if First(zones, IsExact) < 0 && bcm >= 0 {
      var m := First(zones[..bcm], MentionsCpu);
      if m >= 0 {
        assert MentionsCpu(zones[m]) && IsFallbackCandidate(zones[m]);
      } else {
        forall k | 0 <= k < bcm
          ensures !IsFallbackCandidate(zones[k])
        {
          assert zones[..bcm][k] == zones[k];
        }
        assert IsFallbackCandidate(zones[bcm]);
      }
    }
  }

  /** Two zones on which it does not. */
  lemma DocumentedFails()
    ensures Chosen([Some("cpu0"), Some(BCM_THERMAL)]) == 0 && Documented([Some("cpu0"), Some(BCM_THERMAL)]) == 1
  {
    var zones := [Some("cpu0"), Some(BCM_THERMAL)];
    assert ToLower("cpu0")[0..] == ToLower("cpu0") && ToLower("cpu0")[0] == 'c' && ToLower("cpu0")[1] == 'p' && ToLower("cpu0")[2] == 'u';
    assert "cpu" <= ToLower("cpu0")[0..];
    assert MentionsCpu(zones[0]) && IsFallbackCandidate(zones[0]);
    assert IsBcm(zones[1]) && !IsExact(zones[0]) && !IsExact(zones[1]) && !IsBcm(zones[0]);
  }
}
