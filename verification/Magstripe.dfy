/** The magnetic stripe reader: samples three tracks into bit buffers and types the bits on a
    USB keyboard. */
module Magstripe {
  import B = BitBuffer

  const TOTAL_TRACKS := 3

  const KEY_NONE := 0
  const KEY_1 := 30
  const KEY_0 := 39
  const KEY_ENTER := 40

  /** The port bits of one track. */
  datatype Track = Track(clock: bv8, data: bv8)

  // ---- reading a card ------------------------------------------------------------------------

  /** Does a port sample show a card? */
  predicate CardIn(sample: bv8, mask: bv8) {
    sample & mask != 0
  }

  predicate Rising(track: Track, before: bv8, now: bv8) {
    now & track.clock != 0 && (now ^ before) & track.clock != 0
  }

  /** The data level, if the clock has just risen. */
  function Edge(track: Track, before: bv8, now: bv8): seq<bool> {
    if Rising(track, before, now) then [now & track.data != 0] else []
  }

  /** The data levels at all rising clock edges of a track; the sample before the first is 0. */
  function EdgeBits(track: Track, samples: seq<bv8>): seq<bool> {
    if samples == [] then []
    else
      var last := |samples| - 1;
      EdgeBits(track, samples[..last]) + Edge(track, if last == 0 then 0 else samples[last - 1], samples[last])
  }

  /** One more sample adds its edge, if there is one. */
  lemma NextEdge(track: Track, swipe: seq<bv8>, i: nat)
    requires i < |swipe|
    ensures EdgeBits(track, swipe[..i + 1]) ==
      EdgeBits(track, swipe[..i]) + Edge(track, if i == 0 then 0 else swipe[i - 1], swipe[i])
  {
    assert swipe[..i + 1][..i] == swipe[..i];
  }

  lemma {:induction false} EdgesGrow(track: Track, swipe: seq<bv8>, i: nat)
    requires i <= |swipe|
    ensures |EdgeBits(track, swipe[..i])| <= |EdgeBits(track, swipe)|
    decreases |swipe| - i
  {
    if i == |swipe| {
      assert swipe[..i] == swipe;
    } else {
      NextEdge(track, swipe, i);
      EdgesGrow(track, swipe, i + 1);
    }
  }

  /** The `i`-th sample of the port: the swipe, then the card is gone. */
  function Port(swipe: seq<bv8>, end: bv8, i: nat): bv8 {
    if i < |swipe| then swipe[i] else end
  }

  lemma Assoc(a: seq<bool>, b: seq<bool>, c: seq<bool>)
    ensures a + b + c == a + (b + c)
  {
  }

  /** A bit is an edge where the clock was low and is high: `Rising` in terms of levels. */
  lemma RisingIsLowThenHigh(track: Track, before: bv8, now: bv8, i: bv8)
    requires track.clock == i && (i == 1 || i == 2 || i == 4 || i == 8 || i == 16 || i == 32 || i == 64 || i == 128)
    ensures Rising(track, before, now) <==> before & track.clock == 0 && now & track.clock != 0
  {
  }

  /** Between the `i`-th sample and the one before it the clock went from low to high. */
  predicate ClockRose(track: Track, samples: seq<bv8>, i: nat)
    requires i < |samples|
  {
    (i > 0 ==> samples[i - 1] & track.clock == 0) && samples[i] & track.clock != 0
  }

  predicate DataHigh(track: Track, sample: bv8) {
    sample & track.data != 0
  }

  /** How often the clock rose in the first `n` samples. */
  function Rises(track: Track, samples: seq<bv8>, n: nat): nat
    requires n <= |samples|
  {
    if n == 0 then 0 else Rises(track, samples, n - 1) + (if ClockRose(track, samples, n - 1) then 1 else 0)
  }

  predicate SingleBit(mask: bv8) {
    mask == 1 || mask == 2 || mask == 4 || mask == 8 || mask == 16 || mask == 32 || mask == 64 || mask == 128
  }

  lemma EdgeIsData(track: Track, samples: seq<bv8>, i: nat)
    requires SingleBit(track.clock) && i < |samples|
    ensures Edge(track, if i == 0 then 0 else samples[i - 1], samples[i]) ==
      if ClockRose(track, samples, i) then [DataHigh(track, samples[i])] else []
  {
    var before := if i == 0 then 0 else samples[i - 1];
    RisingIsLowThenHigh(track, before, samples[i], track.clock);
    assert 0 & track.clock == 0;
  }

  lemma {:induction false} RisesCount(track: Track, samples: seq<bv8>, n: nat)
    requires SingleBit(track.clock) && n <= |samples|
    ensures |EdgeBits(track, samples[..n])| == Rises(track, samples, n)
    decreases n
  {
    hide ClockRose, Edge, SingleBit;
    if n > 0 {
      NextEdge(track, samples, n - 1);
      EdgeIsData(track, samples, n - 1);
      RisesCount(track, samples, n - 1);
    }
  }

  /** The bits of a track, from the levels alone: one for each time the clock rose, and it is the
      data level of the sample in which it did. */
  lemma {:induction false} TrackBits(track: Track, samples: seq<bv8>, n: nat, i: nat)
    requires SingleBit(track.clock) && i < n <= |samples|
    ensures var bits := EdgeBits(track, samples[..n]);
      && |bits| == Rises(track, samples, n)
      && (ClockRose(track, samples, i) ==>
            Rises(track, samples, i) < |bits| && bits[Rises(track, samples, i)] == DataHigh(track, samples[i]))
    decreases n
  {
    hide ClockRose, Edge, SingleBit, DataHigh, EdgeBits, Rises;
    RisesCount(track, samples, n);
    RisesCount(track, samples, n - 1);
    NextEdge(track, samples, n - 1);
    EdgeIsData(track, samples, n - 1);
    if i < n - 1 {
      TrackBits(track, samples, n - 1, i);
    }
  }

  // ---- typing ----------------------------------------------------------------------------------

  /** What is still to be typed, the track in progress first, and whether a release comes next. */
  datatype Keyboard = Keyboard(release: bool, current: nat, tracks: seq<seq<bool>>)

  predicate Wellformed(kb: Keyboard) {
    |kb.tracks| == TOTAL_TRACKS && kb.current <= TOTAL_TRACKS
  }

  /** A set bit is typed as the digit one and a clear one as the digit zero, by their usage numbers. */
  function Keys(bits: seq<bool>): (keys: seq<int>)
    ensures |keys| == |bits|
    ensures forall i | 0 <= i < |bits| :: keys[i] == (if bits[i] then 30 else 39)
  {
    seq(|bits|, i requires 0 <= i < |bits| => if bits[i] then KEY_1 else KEY_0)
  }

  /** The key presses due: the bits of each remaining track, each followed by ENTER. */
  function Due(kb: Keyboard): seq<int>
    requires Wellformed(kb)
    decreases TOTAL_TRACKS - kb.current
  {
    if kb.current == TOTAL_TRACKS then []
    else Keys(kb.tracks[kb.current]) + [KEY_ENTER] + Due(kb.(current := kb.current + 1))
  }

  /** One report: every other one releases the key. */
  function Report(kb: Keyboard): (r: (Keyboard, int))
    requires Wellformed(kb)
    ensures Wellformed(r.0)
  {
    var release := !kb.release;
    if release || kb.current == TOTAL_TRACKS then (kb.(release := release), KEY_NONE)
    else
      var bits := kb.tracks[kb.current];
      if bits == [] then (kb.(release := release, current := kb.current + 1), KEY_ENTER)
      else (kb.(release := release, tracks := kb.tracks[kb.current := bits[1..]]), if bits[0] then KEY_1 else KEY_0)
  }

  function Reports(kb: Keyboard, n: nat): (keys: seq<int>)
    requires Wellformed(kb)
    ensures |keys| == n
    decreases n
  {
    if n == 0 then [] else [Report(kb).1] + Reports(Report(kb).0, n - 1)
  }

  function Presses(keys: seq<int>): seq<int> {
    if keys == [] then [] else (if keys[0] == KEY_NONE then [] else [keys[0]]) + Presses(keys[1..])
  }

  lemma DueDependsOnRest(kb: Keyboard, other: Keyboard)
    requires Wellformed(kb) && Wellformed(other) && kb.current == other.current
    requires forall t | kb.current <= t < TOTAL_TRACKS :: kb.tracks[t] == other.tracks[t]
    ensures Due(kb) == Due(other)
    decreases TOTAL_TRACKS - kb.current
  {
    if kb.current < TOTAL_TRACKS {
      DueDependsOnRest(kb.(current := kb.current + 1), other.(current := other.current + 1));
    }
  }

  function ThreeTracks(first: seq<bool>, second: seq<bool>, third: seq<bool>): seq<int> {
    Keys(first) + [KEY_ENTER] + Keys(second) + [KEY_ENTER] + Keys(third) + [KEY_ENTER]
  }

  /** All that is due when no track was begun. */
  lemma TracksDue(kb: Keyboard)
    requires Wellformed(kb) && kb.current == 0
    ensures Due(kb) == ThreeTracks(kb.tracks[0], kb.tracks[1], kb.tracks[2])
  {
    var kb1, kb2, kb3 := kb.(current := 1), kb.(current := 2), kb.(current := 3);
    assert Due(kb3) == [];
    assert Due(kb2) == Keys(kb.tracks[2]) + [KEY_ENTER] + Due(kb3);
    assert Due(kb1) == Keys(kb.tracks[1]) + [KEY_ENTER] + Due(kb2);
    assert Due(kb) == Keys(kb.tracks[0]) + [KEY_ENTER] + Due(kb1);
  }

  /** A bit of the track in progress is typed. */
  lemma BitTyped(kb: Keyboard)
    requires Wellformed(kb) && kb.release && kb.current < TOTAL_TRACKS && kb.tracks[kb.current] != []
    ensures var (next, key) := Report(kb); key != KEY_NONE && Due(kb) == [key] + Due(next)
  {
    var (next, key) := Report(kb);
    var bits, rest := kb.tracks[kb.current], Due(kb.(current := kb.current + 1));
    DueDependsOnRest(kb.(current := kb.current + 1), next.(current := next.current + 1));
    assert next.tracks[kb.current] == bits[1..];
    assert Keys(bits) == [key] + Keys(bits[1..]);
    assert [key] + Keys(bits[1..]) + [KEY_ENTER] + rest == [key] + (Keys(bits[1..]) + [KEY_ENTER] + rest);
  }

  /** The end of a track is typed. */
  lemma EndTyped(kb: Keyboard)
    requires Wellformed(kb) && kb.release && kb.current < TOTAL_TRACKS && kb.tracks[kb.current] == []
    ensures var (next, key) := Report(kb); key != KEY_NONE && Due(kb) == [key] + Due(next)
  {
    var (next, key) := Report(kb);
    DueDependsOnRest(kb.(current := kb.current + 1), next);
    assert Keys([]) + [KEY_ENTER] + Due(next) == [KEY_ENTER] + Due(next);
  }

  /** One report types the next key that is due or none. */
  lemma ReportTakesNext(kb: Keyboard)
    requires Wellformed(kb)
    ensures var (next, key) := Report(kb);
      && Due(kb) == (if key == KEY_NONE then [] else [key]) + Due(next)
      && (key != KEY_NONE <==> kb.release && Due(kb) != [])
      && next.release == !kb.release
  {
    var (next, key) := Report(kb);
    if !kb.release || kb.current == TOTAL_TRACKS {
      DueDependsOnRest(kb, next);
    } else if kb.tracks[kb.current] == [] {
      EndTyped(kb);
    } else {
      BitTyped(kb);
    }
  }

  /** The keys that the next `n` reports press, out of `due`, when a press comes first or not. */
  function PressesDue(due: seq<int>, release: bool, n: nat): seq<int> {
    var count := if release then (n + 1) / 2 else n / 2;
    if count <= |due| then due[..count] else due
  }

  lemma PressesDueStep(due: seq<int>, rest: seq<int>, key: int, release: bool, n: nat)
    requires n > 0 && due == (if key == KEY_NONE then [] else [key]) + rest
    requires key != KEY_NONE <==> release && due != []
    ensures PressesDue(due, release, n) == (if key == KEY_NONE then [] else [key]) + PressesDue(rest, !release, n - 1)
  {
    if release && due != [] {
      assert (n + 1) / 2 == (n - 1) / 2 + 1;
    } else {
      assert due == rest;
    }
  }

  /** Without the releases, the reports type exactly what is due, in order, one key every other
      report; when all is typed, nothing follows. */
  lemma {:induction false} ReportsTypeWhatIsDue(kb: Keyboard, n: nat)
    requires Wellformed(kb)
    ensures Presses(Reports(kb, n)) == PressesDue(Due(kb), kb.release, n)
    decreases n
  {
    if n > 0 {
      var next, key := Report(kb).0, Report(kb).1;
      ReportTakesNext(kb);
      ReportsTypeWhatIsDue(next, n - 1);
      PressesDueStep(Due(kb), Due(next), key, kb.release, n);
      assert Reports(kb, n)[0] == key && Reports(kb, n)[1..] == Reports(next, n - 1);
    }
  }

  /** No two reports in a row press a key, so repeated keys are told apart. */
  lemma {:induction false} NoAdjacentPresses(kb: Keyboard, n: nat, i: nat)
    requires Wellformed(kb) && i + 1 < n
    ensures Reports(kb, n)[i] == KEY_NONE || Reports(kb, n)[i + 1] == KEY_NONE
    decreases n
  {
    var (next, key) := Report(kb);
    ReportTakesNext(kb);
    if i > 0 {
      NoAdjacentPresses(next, n - 1, i - 1);
    } else {
      ReportTakesNext(next);
      assert Reports(kb, n)[1] == Report(next).1;
    }
  }

  // ---- the program -------------------------------------------------------------------------------

  class Reader {
    const tracks: seq<Track>
    const buffer0: B.BitBuffer
    const buffer1: B.BitBuffer
    const buffer2: B.BitBuffer
    const cardPresent: bv8
    /** The track being typed, or TOTAL_TRACKS. */
    var current: nat
    var isKeyRelease: bool

    constructor (tracks: seq<Track>, cardPresent: bv8, b0: B.BitBuffer, b1: B.BitBuffer, b2: B.BitBuffer)
      requires |tracks| == TOTAL_TRACKS
      requires b0 != b1 && b0 != b2 && b1 != b2 && b0.data != b1.data && b0.data != b2.data && b1.data != b2.data
      ensures this.tracks == tracks && this.cardPresent == cardPresent
      ensures buffer0 == b0 && buffer1 == b1 && buffer2 == b2
      ensures current == TOTAL_TRACKS && !isKeyRelease
    {
      this.tracks, this.cardPresent := tracks, cardPresent;
      buffer0, buffer1, buffer2 := b0, b1, b2;
      current, isKeyRelease := TOTAL_TRACKS, false;
    }

    ghost predicate Valid()
      reads this, buffer0, buffer0.data, buffer1, buffer1.data, buffer2, buffer2.data
    {
      && |tracks| == TOTAL_TRACKS && current <= TOTAL_TRACKS
      && buffer0 != buffer1 && buffer0 != buffer2 && buffer1 != buffer2
      && buffer0.data != buffer1.data && buffer0.data != buffer2.data && buffer1.data != buffer2.data
      && buffer0.Valid() && buffer1.Valid() && buffer2.Valid()
    }

    ghost function State(): Keyboard
      requires Valid()
      reads this, buffer0, buffer0.data, buffer1, buffer1.data, buffer2, buffer2.data
    {
      Keyboard(isKeyRelease, current, [buffer0.contents, buffer1.contents, buffer2.contents])
    }

    /** Stores the data level of one track if its clock has just risen. */
    method SampleTrack(buffer: B.BitBuffer, track: Track, before: bv8, now: bv8)
      requires buffer.Valid() && |buffer.contents| + |Edge(track, before, now)| <= buffer.Capacity()
      modifies buffer, buffer.data
      ensures buffer.Valid() && buffer.contents == old(buffer.contents) + Edge(track, before, now)
    {
      var dataPinLevel, clockPinLevel, clockLevelChanged := PinLevels(track, before, now);
      if clockPinLevel && clockLevelChanged {
        buffer.StoreNextBit(dataPinLevel);
      } else {
        assert buffer.contents + [] == buffer.contents;
      }
    }

    method PinLevels(track: Track, before: bv8, now: bv8) returns (data: bool, clock: bool, changed: bool)
      ensures Edge(track, before, now) == if clock && changed then [data] else []
    {
      data := now & track.data != 0;
      clock := now & track.clock != 0;
      changed := (now ^ before) & track.clock != 0;
    }

    /** The loop over the tracks for one sample. */
    method SampleTracks(before: bv8, now: bv8)
      requires Valid()
      requires |buffer0.contents| + |Edge(tracks[0], before, now)| <= buffer0.Capacity()
      requires |buffer1.contents| + |Edge(tracks[1], before, now)| <= buffer1.Capacity()
      requires |buffer2.contents| + |Edge(tracks[2], before, now)| <= buffer2.Capacity()
      modifies buffer0, buffer0.data, buffer1, buffer1.data, buffer2, buffer2.data
      ensures Valid()
      ensures buffer0.contents == old(buffer0.contents) + Edge(tracks[0], before, now)
      ensures buffer1.contents == old(buffer1.contents) + Edge(tracks[1], before, now)
      ensures buffer2.contents == old(buffer2.contents) + Edge(tracks[2], before, now)
    {
      SampleTrack(buffer0, tracks[0], before, now);
      SampleTrack(buffer1, tracks[1], before, now);
      SampleTrack(buffer2, tracks[2], before, now);
    }

    /** Reads a card: `swipe` is what the port shows while the card is there, and the sample after
        it is without the card. Every track's buffer has room for its edges. */
    method ReadMagstripeData(swipe: seq<bv8>, end: bv8)
      requires Valid() && !CardIn(end, cardPresent)
      requires forall i | 0 <= i < |swipe| :: CardIn(swipe[i], cardPresent)
      requires Room(swipe, buffer0.contents, buffer1.contents, buffer2.contents)
      modifies this`current, buffer0, buffer0.data, buffer1, buffer1.data, buffer2, buffer2.data
      ensures Valid() && current == 0
      ensures buffer0.contents == old(buffer0.contents) + EdgeBits(tracks[0], swipe)
      ensures buffer1.contents == old(buffer1.contents) + EdgeBits(tracks[1], swipe)
      ensures buffer2.contents == old(buffer2.contents) + EdgeBits(tracks[2], swipe)
    {
      assert buffer0.contents + [] == buffer0.contents && buffer1.contents + [] == buffer1.contents
          && buffer2.contents + [] == buffer2.contents;
      SampleWhilePresent(swipe, end, buffer0.contents, buffer1.contents, buffer2.contents);
      current := 0;
    }

    /** The sampling loop. */
    method SampleWhilePresent(swipe: seq<bv8>, end: bv8, ghost c0: seq<bool>, ghost c1: seq<bool>, ghost c2: seq<bool>)
      requires Valid() && !CardIn(end, cardPresent)
      requires forall i | 0 <= i < |swipe| :: CardIn(swipe[i], cardPresent)
      requires Sampled([], c0, c1, c2) && Room(swipe, c0, c1, c2)
      modifies buffer0, buffer0.data, buffer1, buffer1.data, buffer2, buffer2.data
      ensures Valid() && Sampled(swipe, c0, c1, c2)
    {
      var prev: bv8, now, i := 0, Port(swipe, end, 0), 0;
      assert swipe[..0] == [];
      while CardIn(now, cardPresent)
        invariant 0 <= i <= |swipe| && now == Port(swipe, end, i) && prev == (if i == 0 then 0 else swipe[i - 1])
        invariant Valid() && Sampled(swipe[..i], c0, c1, c2)
        decreases |swipe| - i
      {
        SampleNext(swipe, i, prev, c0, c1, c2);
        prev := now;
        i := i + 1;
        now := Port(swipe, end, i);
      }
      assert i == |swipe|;
      assert swipe[..i] == swipe;
    }

    /** The buffers can hold all edges of a swipe behind what they held. */
    ghost predicate Room(swipe: seq<bv8>, c0: seq<bool>, c1: seq<bool>, c2: seq<bool>)
      requires |tracks| == TOTAL_TRACKS
    {
      && |c0| + |EdgeBits(tracks[0], swipe)| <= buffer0.Capacity()
      && |c1| + |EdgeBits(tracks[1], swipe)| <= buffer1.Capacity()
      && |c2| + |EdgeBits(tracks[2], swipe)| <= buffer2.Capacity()
    }

    /** The edges of the samples so far were appended to what the buffers held. */
    ghost predicate Sampled(samples: seq<bv8>, c0: seq<bool>, c1: seq<bool>, c2: seq<bool>)
      requires |tracks| == TOTAL_TRACKS
      reads buffer0, buffer1, buffer2
    {
      && buffer0.contents == c0 + EdgeBits(tracks[0], samples)
      && buffer1.contents == c1 + EdgeBits(tracks[1], samples)
      && buffer2.contents == c2 + EdgeBits(tracks[2], samples)
    }

    /** The body of the sampling loop. */
    method SampleNext(swipe: seq<bv8>, i: nat, prev: bv8, ghost c0: seq<bool>, ghost c1: seq<bool>, ghost c2: seq<bool>)
      requires Valid() && i < |swipe| && prev == (if i == 0 then 0 else swipe[i - 1])
      requires Sampled(swipe[..i], c0, c1, c2) && Room(swipe, c0, c1, c2)
      modifies buffer0, buffer0.data, buffer1, buffer1.data, buffer2, buffer2.data
      ensures Valid() && Sampled(swipe[..i + 1], c0, c1, c2)
    {
      NextEdges(swipe, i);
      Assoc(c0, EdgeBits(tracks[0], swipe[..i]), Edge(tracks[0], prev, swipe[i]));
      Assoc(c1, EdgeBits(tracks[1], swipe[..i]), Edge(tracks[1], prev, swipe[i]));
      Assoc(c2, EdgeBits(tracks[2], swipe[..i]), Edge(tracks[2], prev, swipe[i]));
      SampleTracks(prev, swipe[i]);
    }

    lemma NextEdges(swipe: seq<bv8>, i: nat)
      requires |tracks| == TOTAL_TRACKS && i < |swipe|
      ensures forall t | 0 <= t < TOTAL_TRACKS ::
        && EdgeBits(tracks[t], swipe[..i + 1]) ==
             EdgeBits(tracks[t], swipe[..i]) + Edge(tracks[t], if i == 0 then 0 else swipe[i - 1], swipe[i])
        && |EdgeBits(tracks[t], swipe[..i + 1])| <= |EdgeBits(tracks[t], swipe)|
    {
      forall t | 0 <= t < TOTAL_TRACKS
        ensures EdgeBits(tracks[t], swipe[..i + 1]) ==
          EdgeBits(tracks[t], swipe[..i]) + Edge(tracks[t], if i == 0 then 0 else swipe[i - 1], swipe[i])
        ensures |EdgeBits(tracks[t], swipe[..i + 1])| <= |EdgeBits(tracks[t], swipe)|
      {
        NextEdge(tracks[t], swipe, i);
        EdgesGrow(tracks[t], swipe, i + 1);
      }
    }

    /** The key of the next report. */
    method CreateHIDReport() returns (key: int)
      requires Valid()
      modifies this, buffer0, buffer0.data, buffer1, buffer1.data, buffer2, buffer2.data
      ensures Valid() && (State(), key) == Report(old(State()))
    {
      isKeyRelease := !isKeyRelease;
      if isKeyRelease || current == TOTAL_TRACKS {
        key := KEY_NONE;
      } else {
        var buffer := if current == 0 then buffer0 else if current == 1 then buffer1 else buffer2;
        if buffer.elements == 0 {
          key := KEY_ENTER;
          current := current + 1;
        } else {
          var bit := TakeBit(buffer);
          key := if bit then KEY_1 else KEY_0;
        }
      }
    }

    /** Takes the next bit of the track in progress. */
    method TakeBit(buffer: B.BitBuffer) returns (bit: bool)
      requires Valid() && current < TOTAL_TRACKS && buffer.elements > 0
      requires buffer == if current == 0 then buffer0 else if current == 1 then buffer1 else buffer2
      modifies buffer, buffer.data
      ensures Valid() && old(buffer.contents) != []
      ensures bit == old(buffer.contents)[0]
      ensures State() == old(State()).(tracks := old(State()).tracks[current := old(buffer.contents)[1..]])
    {
      hide B.Take, B.AllBits, B.Queue.ClearOutside, B.Queue.Contents;
      bit := buffer.GetNextBit();
      assert buffer.contents == old(buffer.contents)[1..];
    }

    /** The reports of one key press after the other. */
    method CreateReports(n: nat) returns (keys: seq<int>)
      requires Valid()
      modifies this, buffer0, buffer0.data, buffer1, buffer1.data, buffer2, buffer2.data
      ensures Valid() && keys == Reports(old(State()), n)
      decreases n
    {
      if n == 0 {
        return [];
      }
      var key := CreateHIDReport();
      var rest := CreateReports(n - 1);
      keys := [key] + rest;
    }

    /** A card is read and the reports that follow are made: without the releases they type what
        was left of track 1 and the bits at its rising clock edges, ENTER, the same for track 2,
        ENTER, the same for track 3, ENTER, as far as the number of reports goes, and then nothing;
        and no two reports in a row press a key. */
    method SwipeAndType(swipe: seq<bv8>, end: bv8, n: nat) returns (keys: seq<int>)
      requires Valid() && !CardIn(end, cardPresent)
      requires forall i | 0 <= i < |swipe| :: CardIn(swipe[i], cardPresent)
      requires Room(swipe, buffer0.contents, buffer1.contents, buffer2.contents)
      modifies this, buffer0, buffer0.data, buffer1, buffer1.data, buffer2, buffer2.data
      ensures Valid() && |keys| == n
      ensures Presses(keys) == PressesDue(
        ThreeTracks(old(buffer0.contents) + EdgeBits(tracks[0], swipe), old(buffer1.contents) + EdgeBits(tracks[1], swipe),
                    old(buffer2.contents) + EdgeBits(tracks[2], swipe)), old(isKeyRelease), n)
      ensures forall i | 0 <= i < n - 1 :: keys[i] == KEY_NONE || keys[i + 1] == KEY_NONE
    {
      ReadMagstripeData(swipe, end);
      keys := TypeTracks(n);
    }

    /** Reports from the beginning of the first track on. */
    method TypeTracks(n: nat) returns (keys: seq<int>)
      requires Valid() && current == 0
      modifies this, buffer0, buffer0.data, buffer1, buffer1.data, buffer2, buffer2.data
      ensures Valid() && |keys| == n
      ensures Presses(keys) == PressesDue(
        ThreeTracks(old(buffer0.contents), old(buffer1.contents), old(buffer2.contents)), old(isKeyRelease), n)
      ensures forall i | 0 <= i < n - 1 :: keys[i] == KEY_NONE || keys[i + 1] == KEY_NONE
    {
      ghost var kb := State();
      TracksDue(kb);
      ReportsTypeWhatIsDue(kb, n);
      keys := CreateReports(n);
      forall i | 0 <= i < n - 1 ensures keys[i] == KEY_NONE || keys[i + 1] == KEY_NONE {
        NoAdjacentPresses(kb, n, i);
      }
    }
  }
}
