/** The RFID tag scanner: turning the UID bytes read from an MFRC522 into a
    tag identifier, and the per-cycle trigger policy that decides when the
    detection callback fires. One poll cycle is a step over what the
    hardware answered in that cycle. */
module RfidReader {
  import opened Wrappers
  import opened Text

  newtype byte = x: int | 0 <= x < 256

  /** What one poll cycle learns from the reader. */
  datatype Observation =
    | NoTag                  // MFRC522_Request did not answer MI_OK
    | AnticollFail           // Request answered, MFRC522_Anticoll did not
    | Uid(bytes: seq<byte>)  // both answered; the UID bytes (possibly none)
    | ReadError              // Request or Anticoll raised an exception

  /** Only this many leading UID bytes enter the identifier. */
  const UidPrefix: nat := 5

  function Head(uid: seq<byte>): (h: seq<byte>)
    ensures |h| <= UidPrefix
  {
    if |uid| <= UidPrefix then uid else uid[..UidPrefix]
  }

  /** The bytes read as a big-endian base-256 number. */
  function BigEndian(s: seq<byte>): nat
  {
    if s == [] then 0 else BigEndian(s[..|s| - 1]) * 256 + s[|s| - 1] as nat
  }

  function Pow256(k: nat): (r: nat)
    ensures r >= 1
  {
    if k == 0 then 1 else 256 * Pow256(k - 1)
  }

  /** The accumulator loop of `rfid_reader.py` over the first five UID bytes. */
  method UidToNumber(uid: seq<byte>) returns (n: nat)
    ensures n == BigEndian(Head(uid))
  {
    var head := Head(uid);
    n := 0;
    for i := 0 to |head|
      invariant n == BigEndian(head[..i])
    {
      assert head[..i + 1][..i] == head[..i];
      n := n * 256 + head[i] as nat;
    }
    assert head[..|head|] == head;
  }

  /** The identifier string handed to the callback: `str(n)`. */
  function TagId(uid: seq<byte>): (r: string)
    ensures r != [] && forall i :: 0 <= i < |r| ==> IsDigit(r[i])
    ensures DecimalValue(r) == BigEndian(Head(uid))
  {
    DecimalRoundTrip(BigEndian(Head(uid)));
    Decimal(BigEndian(Head(uid)))
  }

  /** `k` bytes encode a number below 256^k. */
  lemma {:induction false} BigEndianBound(s: seq<byte>)
    ensures BigEndian(s) < Pow256(|s|)
  {
    if s != [] {
      var init := s[..|s| - 1];
      BigEndianBound(init);
      assert BigEndian(init) + 1 <= Pow256(|init|);
      assert BigEndian(s) < (BigEndian(init) + 1) * 256;
    }
  }

  lemma DivModUnique(q1: nat, r1: nat, q2: nat, r2: nat)
    requires r1 < 256 && r2 < 256
    requires q1 * 256 + r1 == q2 * 256 + r2
    ensures q1 == q2 && r1 == r2
  {
  }

  /** Equally long byte strings with the same value are equal. */
  lemma {:induction false} BigEndianInjective(a: seq<byte>, b: seq<byte>)
    requires |a| == |b|
    requires BigEndian(a) == BigEndian(b)
    ensures a == b
  {
    if a != [] {
      DivModUnique(BigEndian(a[..|a| - 1]), a[|a| - 1] as nat, BigEndian(b[..|b| - 1]), b[|b| - 1] as nat);
      BigEndianInjective(a[..|a| - 1], b[..|b| - 1]);
      assert a == a[..|a| - 1] + [a[|a| - 1]];
      assert b == b[..|b| - 1] + [b[|b| - 1]];
    }
  }

  /** The identifier's value stays below 256^min(len, 5). */
  lemma TagIdValueBound(uid: seq<byte>)
    ensures DecimalValue(TagId(uid)) < Pow256(if |uid| < UidPrefix then |uid| else UidPrefix)
  {
    DecimalRoundTrip(BigEndian(Head(uid)));
    BigEndianBound(Head(uid));
  }

  /** Bytes after the fifth never change the identifier. */
  lemma TagIdIgnoresTail(uid: seq<byte>, extra: seq<byte>)
    requires |uid| >= UidPrefix
    ensures TagId(uid + extra) == TagId(uid)
  {
    assert (uid + extra)[..UidPrefix] == uid[..UidPrefix];
    assert |uid| == UidPrefix ==> uid[..UidPrefix] == uid;
    assert Head(uid + extra) == Head(uid);
  }

  /** Two UIDs of the same length, at most five bytes, with the same
      identifier are the same UID. */
  lemma TagIdInjective(a: seq<byte>, b: seq<byte>)
    requires |a| == |b| <= UidPrefix
    requires TagId(a) == TagId(b)
    ensures a == b
  {
    DecimalInjective(BigEndian(a), BigEndian(b));
    BigEndianInjective(a, b);
  }

  /** UIDs of different lengths can collide: leading zero bytes vanish. */
  lemma LeadingZeroCollides()
    ensures TagId([0, 7]) == TagId([7]) == "7"
  {
    assert [0 as byte, 7][..1] == [0];
  }

  /** What the trigger policy remembers between cycles: `_last_id` and
      `_tag_present`. */
  datatype ScanState = ScanState(lastId: Option<string>, tagPresent: bool)

  /** The state the reader is constructed with. */
  const Initial := ScanState(None, false)

  datatype CycleResult = CycleResult(state: ScanState, fired: Option<string>)

  /** One poll cycle: the new state and the identifier passed to the callback,
      if it was called. `callbackRaises` says whether that call raised; the
      exception handler then skips the update of `_tag_present`. */
  function Cycle(s: ScanState, obs: Observation, callbackRaises: bool): (r: CycleResult)
    ensures r.fired.Some? ==>
      obs.Uid? && obs.bytes != [] && r.fired == Some(TagId(obs.bytes)) && r.state.lastId == r.fired
    ensures r.fired.None? ==> r.state.lastId == s.lastId
    ensures obs.NoTag? ==> !r.state.tagPresent
  {
    match obs
    case NoTag => CycleResult(s.(tagPresent := false), None)
    case AnticollFail => CycleResult(s, None)
    case ReadError => CycleResult(s, None)
    case Uid(b) =>
      if b == [] then CycleResult(s, None)
      else
        var id := TagId(b);
        if !s.tagPresent || s.lastId != Some(id) then
          CycleResult(ScanState(Some(id), if callbackRaises then s.tagPresent else true), Some(id))
        else
          CycleResult(s.(tagPresent := true), None)
  }

  /** A read fires exactly when no tag was present in the previous cycle or
      the identifier differs from the last one fired; a fired identifier
      becomes the last one. */
  lemma FiringRule(s: ScanState, b: seq<byte>, callbackRaises: bool)
    requires b != []
    ensures Cycle(s, Uid(b), callbackRaises).fired.Some?
            <==> !s.tagPresent || s.lastId != Some(TagId(b))
    ensures Cycle(s, Uid(b), callbackRaises).fired.Some? ==>
            Cycle(s, Uid(b), callbackRaises).fired == Cycle(s, Uid(b), callbackRaises).state.lastId == Some(TagId(b))
    ensures !callbackRaises ==> Cycle(s, Uid(b), callbackRaises).state.tagPresent
  {
  }

  /** An empty field clears `_tag_present`, keeps `_last_id` and fires nothing. */
  lemma NoTagRule(s: ScanState, callbackRaises: bool)
    ensures Cycle(s, NoTag, callbackRaises) == CycleResult(ScanState(s.lastId, false), None)
  {
  }

  /** A failed anticollision, an empty UID or a read error changes nothing. */
  lemma QuietCycles(s: ScanState, obs: Observation, callbackRaises: bool)
    requires obs.AnticollFail? || obs.ReadError? || obs == Uid([])
    ensures Cycle(s, obs, callbackRaises) == CycleResult(s, None)
  {
  }

  /** When the callback raises on a freshly placed tag, `_tag_present` stays
      false, so the same tag fires again on the next cycle. */
  lemma RaisingCallbackRefires(s: ScanState, b: seq<byte>)
    requires b != [] && !s.tagPresent
    ensures Cycle(s, Uid(b), true).fired == Some(TagId(b))
    ensures Cycle(Cycle(s, Uid(b), true).state, Uid(b), false).fired == Some(TagId(b))
  {
  }

  function Fired(f: Option<string>): seq<string>
  {
    if f.Some? then [f.value] else []
  }

  datatype RunResult = RunResult(state: ScanState, fired: seq<string>)

  /** Consecutive cycles, every callback returning normally: the final state
      and the identifiers passed to the callback, in order. */
  function Run(s: ScanState, obs: seq<Observation>): (r: RunResult)
    ensures |r.fired| <= |obs|
    ensures r.fired == [] ==> r.state.lastId == s.lastId
    ensures r.fired != [] ==> r.state.lastId == Some(r.fired[|r.fired| - 1])
  {
    if obs == [] then RunResult(s, [])
    else
      var r := Run(s, obs[..|obs| - 1]);
      var c := Cycle(r.state, obs[|obs| - 1], false);
      RunResult(c.state, r.fired + Fired(c.fired))
  }

  function Repeat(o: Observation, k: nat): (r: seq<Observation>)
    ensures |r| == k && forall i :: 0 <= i < k ==> r[i] == o
  {
    if k == 0 then [] else Repeat(o, k - 1) + [o]
  }

  /** Holding one tag on the reader for any number of cycles fires at most once:
      on the first cycle, and only if that cycle fires at all. */
  lemma {:induction false} HeldTagFiresOnce(s: ScanState, b: seq<byte>, k: nat)
    requires b != [] && k >= 1
    ensures Run(s, Repeat(Uid(b), k)) == RunResult(ScanState(Some(TagId(b)), true), Fired(Cycle(s, Uid(b), false).fired))
  {
    var obs := Repeat(Uid(b), k);
    assert obs[..k - 1] == Repeat(Uid(b), k - 1);
    if k > 1 {
      HeldTagFiresOnce(s, b, k - 1);
    } else {
      assert Run(s, []) == RunResult(s, []);
    }
  }

  /** From the constructed state, a tag held for `k` cycles fires exactly once. */
  lemma HeldTagFromStart(b: seq<byte>, k: nat)
    requires b != [] && k >= 1
    ensures Run(Initial, Repeat(Uid(b), k)).fired == [TagId(b)]
  {
    HeldTagFiresOnce(Initial, b, k);
  }

  /** Taking a tag away and presenting it again fires it again. */
  lemma {:induction false} RepresentFires(s: ScanState, obs: seq<Observation>, b: seq<byte>)
    requires b != []
    ensures var r := Run(s, obs + [NoTag, Uid(b)]);
            r.fired == Run(s, obs).fired + [TagId(b)] && r.state == ScanState(Some(TagId(b)), true)
  {
    var all := obs + [NoTag, Uid(b)];
    assert all[..|all| - 1] == obs + [NoTag];
    assert (obs + [NoTag])[..|obs|] == obs;
  }

  /** Two reads of "123" fire once; "123" then "456" fire twice. */
  lemma TwoReads()
    ensures Run(Initial, [Uid([123]), Uid([123])]).fired == ["123"]
    ensures Run(Initial, [Uid([123]), Uid([1, 200])]).fired == ["123", "456"]
  {
    assert [Uid([123]), Uid([123])][..1] == [Uid([123])];
    assert [Uid([123]), Uid([1, 200])][..1] == [Uid([123])];
    assert [Uid([123])][..0] == [];
    assert [1 as byte, 200][..1] == [1];
    assert TagId([123]) == "123";
    assert TagId([1, 200]) == "456";
  }

  // An independent description of the policy: the tag on the reader is
  // whatever the latest informative cycle saw, and a read fires exactly when
  // it does not repeat that tag.

  /** The tag on the reader after these cycles, judged only by the
      observations: the latest empty field or non-empty UID decides. */
  function PresentTag(obs: seq<Observation>): Option<string>
  {
    if obs == [] then None
    else
      var o := obs[|obs| - 1];
      if o.NoTag? then None
      else if o.Uid? && o.bytes != [] then Some(TagId(o.bytes))
      else PresentTag(obs[..|obs| - 1])
  }

  /** The identifiers that a rising edge (a new tag, or a tag following an
      empty field) produces. */
  function Edges(obs: seq<Observation>): seq<string>
  {
    if obs == [] then []
    else
      var init := obs[..|obs| - 1];
      var o := obs[|obs| - 1];
      if o.Uid? && o.bytes != [] && PresentTag(init) != Some(TagId(o.bytes))
      then Edges(init) + [TagId(o.bytes)]
      else Edges(init)
  }

  /** From the constructed state, the reader fires exactly on rising edges,
      and its state is what the observations say is on the reader. */
  lemma {:induction false} RunFiresOnEdges(obs: seq<Observation>)
    ensures Run(Initial, obs).fired == Edges(obs)
    ensures Run(Initial, obs).state.tagPresent <==> PresentTag(obs).Some?
    ensures Run(Initial, obs).state.tagPresent ==> Run(Initial, obs).state.lastId == PresentTag(obs)
  {
    if obs != [] {
      RunFiresOnEdges(obs[..|obs| - 1]);
    }
  }

  /** The reader object: the trigger state plus the `_running` flag that keeps
      its polling loop alive. */
  class Reader {
    var lastId: Option<string>
    var tagPresent: bool
    var running: bool

    function State(): ScanState
      reads this
    {
      ScanState(lastId, tagPresent)
    }

    constructor ()
      ensures State() == Initial && !running
    {
      lastId := None;
      tagPresent := false;
      running := false;
    }

    method Start()
      modifies this
      ensures running && State() == old(State())
    {
      running := true;
    }

    method Stop()
      modifies this
      ensures !running && State() == old(State())
    {
      running := false;
    }

    /** One iteration of the polling loop. */
    method PollCycle(obs: Observation, callbackRaises: bool) returns (fired: Option<string>)
      modifies this
      ensures CycleResult(State(), fired) == Cycle(old(State()), obs, callbackRaises)
      ensures running == old(running)
    {
      fired := None;
      match obs {
        case NoTag =>
          tagPresent := false;
        case AnticollFail =>
        case ReadError =>
        case Uid(uid) =>
          if uid != [] {
            var n := UidToNumber(uid);
            var tagStr := Decimal(n);
            if !tagPresent || lastId != Some(tagStr) {
              lastId := Some(tagStr);
              fired := Some(tagStr);
              if callbackRaises {
                return;
              }
            }
            tagPresent := true;
          }
      }
    }

    /** The polling loop while `_running` holds, over the cycles observed,
        every callback returning normally. */
    method Poll(observations: seq<Observation>) returns (fired: seq<string>)
      modifies this
      ensures running == old(running)
      ensures old(running) ==> RunResult(State(), fired) == Run(old(State()), observations)
      ensures !old(running) ==> fired == [] && State() == old(State())
    {
      fired := [];
      var i := 0;
      while running && i < |observations|
        invariant 0 <= i <= |observations|
        invariant running == old(running)
        invariant !running ==> i == 0 && fired == [] && State() == old(State())
        invariant running ==> RunResult(State(), fired) == Run(old(State()), observations[..i])
      {
        var f := PollCycle(observations[i], false);
        assert observations[..i + 1][..i] == observations[..i];
        fired := fired + Fired(f);
        i := i + 1;
      }
      if running {
        assert observations[..|observations|] == observations;
      }
    }
  }
}
