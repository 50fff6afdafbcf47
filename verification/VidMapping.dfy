/**
 * The string-VID mapping protocol.
 *
 * `ClientStep` performs one store access of one `resolve_vid` call.  `ResolveVid`
 * runs those steps without interference; `Next` lets any number of clients take
 * them in any order, crash between them, and share the store with writers of
 * graph data.
 */
module VidMapping {
  import opened Prelude
  import opened Bytes
  import opened KeyValue
  import opened Keys

  type Value = seq<Byte>

  datatype Config = Config(space: string, maxLen: nat, hash: Value -> nat)

  // ===== Reading the store =====

  function Forward(cfg: Config, store: Store, value: Value): Option<seq<Byte>> {
    if ForwardKey(cfg.space, value) in store then Some(store[ForwardKey(cfg.space, value)]) else None
  }

  function Owner(cfg: Config, store: Store, c: int): Option<Value> {
    if ReverseKey(cfg.space, c) in store then Some(store[ReverseKey(cfg.space, c)]) else None
  }

  predicate HasVertex(cfg: Config, store: Store, c: int) { VertexKey(cfg.space, c) in store }

  predicate HasOutEdge(cfg: Config, store: Store, c: int) {
    exists k :: k in store && EdgeSrcPrefix(cfg.space, c) <= k
  }

  predicate HasInEdge(cfg: Config, store: Store, c: int) {
    exists k :: k in store && InEdgeDstPrefix(cfg.space, c) <= k
  }

  /** The number is already used by graph data. */
  predicate Occupied(cfg: Config, store: Store, c: int) {
    HasVertex(cfg, store, c) || HasOutEdge(cfg, store, c) || HasInEdge(cfg, store, c)
  }

  // ===== Candidates =====

  predicate IsSurrogate(c: int) { I64_MIN <= c < 0 }

  function InitialCandidate(cfg: Config, value: Value): (c: int)
    ensures IsSurrogate(c)
  {
    cfg.hash(value) % TWO_63 + I64_MIN
  }

  /** The hash with its top bit set, read as a signed number. */
  lemma InitialCandidateExactly(cfg: Config, value: Value)
    ensures cfg.hash(value) < TWO_63 ==> InitialCandidate(cfg, value) == cfg.hash(value) - TWO_63
    ensures TWO_63 <= cfg.hash(value) < TWO_64 ==> InitialCandidate(cfg, value) == cfg.hash(value) - TWO_64
  {
    if TWO_63 <= cfg.hash(value) < TWO_64 { assert cfg.hash(value) % TWO_63 == cfg.hash(value) - TWO_63; }
  }

  function NextCandidate(c: int): (n: int)
    requires IsSurrogate(c)
    ensures IsSurrogate(n)
  {
    if c == -1 then I64_MIN else c + 1
  }

  /** How many probes lead from the value's initial candidate to `c`. */
  function ProbeIndex(cfg: Config, value: Value, c: int): (k: nat)
    requires IsSurrogate(c)
    ensures k < TWO_63
  {
    (c - InitialCandidate(cfg, value)) % TWO_63
  }

  /** Probing visits every negative number, at a place of its own, before it returns to the first. */
  lemma ProbeOrder(cfg: Config, value: Value, c: int)
    requires IsSurrogate(c)
    ensures ProbeIndex(cfg, value, c) == 0 <==> c == InitialCandidate(cfg, value)
    ensures NextCandidate(c) != InitialCandidate(cfg, value) ==>
              ProbeIndex(cfg, value, NextCandidate(c)) == ProbeIndex(cfg, value, c) + 1
    ensures NextCandidate(c) == InitialCandidate(cfg, value) ==> ProbeIndex(cfg, value, c) == TWO_63 - 1
  {
  }

  lemma ProbeIndexInjective(cfg: Config, value: Value, c: int, d: int)
    requires IsSurrogate(c) && IsSurrogate(d) && ProbeIndex(cfg, value, c) == ProbeIndex(cfg, value, d)
    ensures c == d
  {
  }

  // ===== One store access =====

  datatype Error =
    | TooLong | CorruptForward | OutsideNamespace | MissingReverse | ConflictingReverse
    | ConflictingForward | Exhausted

  datatype Phase =
    | ReadForward
    | ReadReverse(encoded: seq<Byte>)
    | Probe(c: int)
    | CheckVertex(c: int)
    | CheckOutEdges(c: int)
    | CheckInEdges(c: int)
    | Claim(c: int)
    | Publish(c: int)
    | Returned(answer: Option<int>)
    | Failed(error: Error)
    | Crashed

  datatype Client = Client(value: Value, create: bool, phase: Phase)

  predicate Running(phase: Phase) { !phase.Returned? && !phase.Failed? && !phase.Crashed? }

  predicate CandidateInRange(phase: Phase) {
    phase.Probe? || phase.CheckVertex? || phase.CheckOutEdges? || phase.CheckInEdges? || phase.Claim? ||
    phase.Publish? ==>
      IsSurrogate(phase.c)
  }

  function Advance(cfg: Config, value: Value, c: int): Phase
    requires IsSurrogate(c)
  {
    if NextCandidate(c) == InitialCandidate(cfg, value) then Failed(Exhausted) else Probe(NextCandidate(c))
  }

  /** What to do about the owner of candidate `c`'s reverse key. */
  function Decide(cfg: Config, value: Value, c: int, owner: Value): Phase
    requires IsSurrogate(c)
  {
    if owner == value then Publish(c) else Advance(cfg, value, c)
  }

  function ForwardFound(cfg: Config, store: Store, value: Value, encoded: seq<Byte>): Phase {
    match DecodeI64(encoded)
    case None => Failed(CorruptForward)
    case Some(i) =>
      if i >= 0 then Failed(OutsideNamespace)
      else
        match Owner(cfg, store, i)
        case None => Failed(MissingReverse)
        case Some(owner) => if owner == value then Returned(Some(i)) else Failed(ConflictingReverse)
  }

  /** A forward entry is answered exactly if it is a negative number whose reverse entry names the string back. */
  lemma ForwardFoundExactly(cfg: Config, store: Store, value: Value, encoded: seq<Byte>, i: int)
    ensures ForwardFound(cfg, store, value, encoded) == Returned(Some(i)) <==>
              DecodeI64(encoded) == Some(i) && i < 0 && Owner(cfg, store, i) == Some(value)
    ensures var phase := ForwardFound(cfg, store, value, encoded);
            (phase.Returned? && phase.answer.Some?) || (phase.Failed? && phase.error != ConflictingForward)
  {
  }

  function NextPhase(cfg: Config, store: Store, cl: Client): (phase: Phase)
    requires Running(cl.phase) && CandidateInRange(cl.phase)
    ensures CandidateInRange(phase)
  {
    match cl.phase
    case ReadForward =>
      if |cl.value| > cfg.maxLen then Failed(TooLong)
      else
        (match Forward(cfg, store, cl.value)
         case Some(encoded) => ReadReverse(encoded)
         case None => if cl.create then Probe(InitialCandidate(cfg, cl.value)) else Returned(None))
    case ReadReverse(encoded) => ForwardFound(cfg, store, cl.value, encoded)
    case Probe(c) =>
      (match Owner(cfg, store, c)
       case Some(owner) => Decide(cfg, cl.value, c, owner)
       case None => CheckVertex(c))
    case CheckVertex(c) => if HasVertex(cfg, store, c) then Advance(cfg, cl.value, c) else CheckOutEdges(c)
    case CheckOutEdges(c) => if HasOutEdge(cfg, store, c) then Advance(cfg, cl.value, c) else CheckInEdges(c)
    case CheckInEdges(c) => if HasInEdge(cfg, store, c) then Advance(cfg, cl.value, c) else Claim(c)
    case Claim(c) =>
      (match Owner(cfg, store, c)
       case Some(owner) => Decide(cfg, cl.value, c, owner)
       case None => Publish(c))
    case Publish(c) =>
      (match Forward(cfg, store, cl.value)
       case Some(encoded) => if DecodeI64(encoded) == Some(c) then Returned(Some(c)) else Failed(ConflictingForward)
       case None => Returned(Some(c)))
  }

  /** The two `put_if_absent` writes; every other access only reads. */
  function NextStore(cfg: Config, store: Store, cl: Client): Store
    requires Running(cl.phase) && CandidateInRange(cl.phase)
  {
    match cl.phase
    case Claim(c) =>
      if Owner(cfg, store, c).None? then store[ReverseKey(cfg.space, c) := cl.value] else store
    case Publish(c) =>
      if Forward(cfg, store, cl.value).None? then store[ForwardKey(cfg.space, cl.value) := EncodeI64(c)] else store
    case _ => store
  }

  // ===== What the writes change =====

  lemma ClaimEffect(cfg: Config, store: Store, c: int, value: Value)
    requires IsI64(c)
    ensures var store' := store[ReverseKey(cfg.space, c) := value];
            && (forall v :: Forward(cfg, store', v) == Forward(cfg, store, v))
            && Owner(cfg, store', c) == Some(value)
            && (forall d :: IsI64(d) && d != c ==> Owner(cfg, store', d) == Owner(cfg, store, d))
  {
    forall v: Value ensures ForwardKey(cfg.space, v) != ReverseKey(cfg.space, c) {
      ForwardIsNotReverse(cfg.space, v, c);
    }
    forall d | IsI64(d) && d != c ensures ReverseKey(cfg.space, d) != ReverseKey(cfg.space, c) {
      if ReverseKey(cfg.space, d) == ReverseKey(cfg.space, c) { ReverseKeyInjective(cfg.space, d, c); }
    }
  }

  lemma PublishEffect(cfg: Config, store: Store, c: int, value: Value)
    requires IsI64(c)
    ensures var store' := store[ForwardKey(cfg.space, value) := EncodeI64(c)];
            && (forall d :: Owner(cfg, store', d) == Owner(cfg, store, d))
            && Forward(cfg, store', value) == Some(EncodeI64(c))
            && (forall v :: v != value ==> Forward(cfg, store', v) == Forward(cfg, store, v))
  {
    forall d: int ensures ForwardKey(cfg.space, value) != ReverseKey(cfg.space, d) {
      ForwardIsNotReverse(cfg.space, value, d);
    }
    forall v: Value | v != value ensures ForwardKey(cfg.space, v) != ForwardKey(cfg.space, value) {
      if ForwardKey(cfg.space, v) == ForwardKey(cfg.space, value) { ForwardKeyInjective(cfg.space, v, value); }
    }
  }

  /** Writing a mapping key leaves the graph data, and so the occupancy of every number, alone. */
  lemma MappingWritesKeepData(cfg: Config, store: Store, key: string, bytes: seq<Byte>)
    requires IsMappingKey(cfg.space, key)
    ensures forall d :: HasVertex(cfg, store[key := bytes], d) == HasVertex(cfg, store, d)
    ensures forall d :: HasOutEdge(cfg, store[key := bytes], d) == HasOutEdge(cfg, store, d)
    ensures forall d :: HasInEdge(cfg, store[key := bytes], d) == HasInEdge(cfg, store, d)
  {
    forall d: int
      ensures HasVertex(cfg, store[key := bytes], d) == HasVertex(cfg, store, d)
      ensures HasOutEdge(cfg, store[key := bytes], d) == HasOutEdge(cfg, store, d)
      ensures HasInEdge(cfg, store[key := bytes], d) == HasInEdge(cfg, store, d)
    {
      MappingKeysStandApart(cfg.space, key, d);
      var store' := store[key := bytes];
      assert forall k :: k in store' && k != key ==> k in store;
      assert forall k :: k in store ==> k in store';
    }
  }

  // ===== Safety under every interleaving =====

  /** Every forward entry names a surrogate whose reverse entry names the string back. */
  ghost predicate Consistent(cfg: Config, store: Store) {
    forall v :: Forward(cfg, store, v).Some? ==> PointsBack(cfg, store, v, DecodeI64(Forward(cfg, store, v).value))
  }

  ghost predicate PointsBack(cfg: Config, store: Store, v: Value, i: Option<int>) {
    i.Some? && IsSurrogate(i.value) && Owner(cfg, store, i.value) == Some(v)
  }

  /** No mapping entry is removed or changed. */
  ghost predicate Grows(cfg: Config, store: Store, store': Store) {
    && (forall v :: Forward(cfg, store, v).Some? ==> Forward(cfg, store', v) == Forward(cfg, store, v))
    && (forall c :: IsI64(c) && Owner(cfg, store, c).Some? ==> Owner(cfg, store', c) == Owner(cfg, store, c))
  }

  /** The number that the forward entry of `v` maps to. */
  ghost function MappedTo(cfg: Config, store: Store, v: Value): Option<int> {
    match Forward(cfg, store, v)
    case None => None
    case Some(encoded) => DecodeI64(encoded)
  }

  ghost predicate ClientOk(cfg: Config, store: Store, cl: Client) {
    && CandidateInRange(cl.phase)
    && match cl.phase
       case ReadForward | Crashed => true
       case ReadReverse(encoded) => Forward(cfg, store, cl.value) == Some(encoded)
       case Publish(c) => cl.create && Owner(cfg, store, c) == Some(cl.value)
       case Returned(None) => !cl.create
       case Returned(Some(i)) => MappedTo(cfg, store, cl.value) == Some(i)
       case Failed(e) => e == TooLong || (cl.create && (e == ConflictingForward || e == Exhausted))
       case _ => cl.create
  }

  datatype World = World(store: Store, clients: map<nat, Client>)

  datatype Action = Arrive(id: nat, value: Value, create: bool) | Step(id: nat) | Crash(id: nat) | WriteData

  /** Other writers may change anything but the mapping keys. */
  ghost predicate KeepsMapping(cfg: Config, store: Store, store': Store) {
    forall k :: IsMappingKey(cfg.space, k) ==>
      (k in store <==> k in store') && (k in store && k in store' ==> store'[k] == store[k])
  }

  ghost predicate Next(cfg: Config, w: World, a: Action, w': World) {
    match a
    case Arrive(id, value, create) =>
      id !in w.clients && w' == World(w.store, w.clients[id := Client(value, create, ReadForward)])
    case Step(id) =>
      && id in w.clients && Running(w.clients[id].phase) && CandidateInRange(w.clients[id].phase)
      && var cl := w.clients[id];
         w' == World(NextStore(cfg, w.store, cl), w.clients[id := cl.(phase := NextPhase(cfg, w.store, cl))])
    case Crash(id) =>
      && id in w.clients && Running(w.clients[id].phase)
      && w' == World(w.store, w.clients[id := w.clients[id].(phase := Crashed)])
    case WriteData =>
      w'.clients == w.clients && KeepsMapping(cfg, w.store, w'.store)
  }

  ghost predicate WorldOk(cfg: Config, w: World) {
    && Consistent(cfg, w.store)
    && forall id :: id in w.clients ==> ClientOk(cfg, w.store, w.clients[id])
  }

  lemma DataWritesKeepMapping(cfg: Config, store: Store, store': Store)
    requires KeepsMapping(cfg, store, store')
    ensures forall v :: Forward(cfg, store', v) == Forward(cfg, store, v)
    ensures forall c :: Owner(cfg, store', c) == Owner(cfg, store, c)
  {
    forall v: Value, c: int
      ensures IsMappingKey(cfg.space, ForwardKey(cfg.space, v)) && IsMappingKey(cfg.space, ReverseKey(cfg.space, c))
    {
      BuildersMakeMappingKeys(cfg.space, v, c);
    }
  }

  lemma StepGrows(cfg: Config, store: Store, cl: Client)
    requires Consistent(cfg, store) && ClientOk(cfg, store, cl) && Running(cl.phase)
    ensures Grows(cfg, store, NextStore(cfg, store, cl)) && Consistent(cfg, NextStore(cfg, store, cl))
  {
    match cl.phase
    case Claim(c) => ClaimEffect(cfg, store, c, cl.value);
    case Publish(c) => PublishEffect(cfg, store, c, cl.value); I64RoundTrip(c);
    case _ =>
  }

  lemma StepKeepsClient(cfg: Config, store: Store, cl: Client)
    requires Consistent(cfg, store) && ClientOk(cfg, store, cl) && Running(cl.phase)
    ensures ClientOk(cfg, NextStore(cfg, store, cl), cl.(phase := NextPhase(cfg, store, cl)))
  {
    match cl.phase
    case Claim(c) => ClaimEffect(cfg, store, c, cl.value);
    case Publish(c) => PublishEffect(cfg, store, c, cl.value); I64RoundTrip(c);
    case _ =>
  }

  lemma ClientOkGrows(cfg: Config, store: Store, store': Store, cl: Client)
    requires ClientOk(cfg, store, cl) && Grows(cfg, store, store')
    ensures ClientOk(cfg, store', cl)
  {
  }

  /** A call that has returned, failed or crashed is over. */
  ghost predicate FinishedStay(w: World, w': World) {
    forall id :: id in w.clients ==>
      && id in w'.clients && w'.clients[id].value == w.clients[id].value
      && (!Running(w.clients[id].phase) ==> w'.clients[id] == w.clients[id])
  }

  lemma NextKeeps(cfg: Config, w: World, a: Action, w': World)
    requires WorldOk(cfg, w) && Next(cfg, w, a, w')
    ensures WorldOk(cfg, w') && Grows(cfg, w.store, w'.store) && FinishedStay(w, w')
  {
    match a
    case Step(id) =>
      var cl := w.clients[id];
      StepGrows(cfg, w.store, cl);
      StepKeepsClient(cfg, w.store, cl);
      forall other | other in w'.clients ensures ClientOk(cfg, w'.store, w'.clients[other]) {
        if other != id { ClientOkGrows(cfg, w.store, w'.store, w.clients[other]); }
      }
    case WriteData =>
      DataWritesKeepMapping(cfg, w.store, w'.store);
      forall other | other in w'.clients ensures ClientOk(cfg, w'.store, w'.clients[other]) {
        ClientOkGrows(cfg, w.store, w'.store, w.clients[other]);
      }
    case _ =>
  }

  ghost predicate Follows(cfg: Config, w: World, w': World) {
    exists a :: Next(cfg, w, a, w')
  }

  ghost predicate IsRun(cfg: Config, run: seq<World>) {
    run != [] && forall i {:trigger run[i]} :: 0 <= i < |run| - 1 ==> Follows(cfg, run[i], run[i + 1])
  }

  lemma GrowsTransitive(cfg: Config, a: Store, b: Store, c: Store)
    requires Grows(cfg, a, b) && Grows(cfg, b, c)
    ensures Grows(cfg, a, c)
  {
  }

  lemma FinishedTransitive(a: World, b: World, c: World)
    requires FinishedStay(a, b) && FinishedStay(b, c)
    ensures FinishedStay(a, c)
  {
  }

  /** In every run every world is consistent, and mappings are only ever added. */
  lemma {:induction false} RunIsSafe(cfg: Config, run: seq<World>, i: nat, j: nat)
    requires IsRun(cfg, run) && WorldOk(cfg, run[0]) && i <= j < |run|
    ensures WorldOk(cfg, run[i]) && WorldOk(cfg, run[j])
    ensures Grows(cfg, run[i].store, run[j].store) && FinishedStay(run[i], run[j])
    decreases j, i
  {
    if i < j {
      assert Follows(cfg, run[j - 1], run[j]);
      var a :| Next(cfg, run[j - 1], a, run[j]);
      hide WorldOk, Grows, FinishedStay, Next, IsRun, Follows;
      RunIsSafe(cfg, run, i, j - 1);
      NextKeeps(cfg, run[j - 1], a, run[j]);
      GrowsTransitive(cfg, run[i].store, run[j - 1].store, run[j].store);
      FinishedTransitive(run[i], run[j - 1], run[j]);
    } else if 0 < i {
      RunIsSafe(cfg, run, i - 1, i);
    }
  }

  ghost predicate Answered(w: World, id: nat, value: Value, number: int) {
    id in w.clients && w.clients[id].value == value && w.clients[id].phase == Returned(Some(number))
  }

  /** Whenever and by whomever they are made, two successful calls agree exactly when their strings do. */
  lemma AnswersAgree(cfg: Config, run: seq<World>, i: nat, j: nat, id: nat, v: Value, x: int, id': nat, v': Value,
                     y: int)
    requires IsRun(cfg, run) && WorldOk(cfg, run[0]) && i <= j < |run|
    requires Answered(run[i], id, v, x) && Answered(run[j], id', v', y)
    ensures IsSurrogate(x) && Owner(cfg, run[j].store, x) == Some(v)
    ensures v == v' <==> x == y
  {
    RunIsSafe(cfg, run, i, j);
    assert ClientOk(cfg, run[j].store, run[j].clients[id]);
    assert ClientOk(cfg, run[j].store, run[j].clients[id']);
  }

  /** Read-only calls neither write nor meet a corruption error. */
  lemma ReadOnlyIsHarmless(cfg: Config, w: World, id: nat, w': World)
    requires WorldOk(cfg, w) && Next(cfg, w, Step(id), w') && !w.clients[id].create
    ensures w'.store == w.store
    ensures w'.clients[id].phase.Failed? ==> w'.clients[id].phase.error == TooLong && |w.clients[id].value| > cfg.maxLen
  {
    assert ClientOk(cfg, w.store, w.clients[id]);
  }

  // ===== Runs in which graph data leaves the candidates of a string alone =====

  /** A call for `v` passes over `c` when it has another owner, or none but graph data. */
  ghost predicate Blocked(cfg: Config, store: Store, v: Value, c: int) {
    match Owner(cfg, store, c)
    case Some(owner) => owner != v
    case None => Occupied(cfg, store, c)
  }

  /** The first `n` candidates of `v` are all passed over. */
  ghost predicate BlockedBefore(cfg: Config, store: Store, v: Value, n: nat) {
    forall d :: IsSurrogate(d) && ProbeIndex(cfg, v, d) < n ==> Blocked(cfg, store, v, d)
  }

  /** The number is occupied afterwards exactly as before. */
  ghost predicate SameAt(cfg: Config, store: Store, store': Store, d: int) {
    && HasVertex(cfg, store', d) == HasVertex(cfg, store, d)
    && HasOutEdge(cfg, store', d) == HasOutEdge(cfg, store, d)
    && HasInEdge(cfg, store', d) == HasInEdge(cfg, store, d)
  }

  /** Among the candidates of `v` up to the `n`-th, from zero. */
  ghost predicate InZone(cfg: Config, v: Value, n: nat, c: int) {
    IsSurrogate(c) && ProbeIndex(cfg, v, c) <= n
  }

  /** The candidates of the zone that come before `c` are passed over. */
  ghost predicate Passed(cfg: Config, store: Store, v: Value, n: nat, c: int)
    requires IsSurrogate(c)
  {
    BlockedBefore(cfg, store, v, if ProbeIndex(cfg, v, c) <= n then ProbeIndex(cfg, v, c) else n + 1)
  }

  ghost predicate QuietClient(cfg: Config, store: Store, n: nat, cl: Client) {
    && CandidateInRange(cl.phase)
    && match cl.phase
       case Probe(c) => Passed(cfg, store, cl.value, n, c)
       case CheckVertex(c) => QuietCheck(cfg, store, cl.value, n, c, true)
       case CheckOutEdges(c) => QuietCheck(cfg, store, cl.value, n, c, !HasVertex(cfg, store, c))
       case CheckInEdges(c) =>
         QuietCheck(cfg, store, cl.value, n, c, !HasVertex(cfg, store, c) && !HasOutEdge(cfg, store, c))
       case Claim(c) =>
         && Passed(cfg, store, cl.value, n, c)
         && (InZone(cfg, cl.value, n, c) && Owner(cfg, store, c).None? ==> !Occupied(cfg, store, c))
       case Failed(e) => e == ConflictingForward || e == Exhausted ==> BlockedBefore(cfg, store, cl.value, n + 1)
       case _ => true
  }

  /** What was found clear stays clear while nobody owns it, and if `v` has claimed it meanwhile, it was free. */
  ghost predicate QuietCheck(cfg: Config, store: Store, v: Value, n: nat, c: int, clear: bool)
    requires IsSurrogate(c)
  {
    && Passed(cfg, store, v, n, c)
    && (InZone(cfg, v, n, c) && Owner(cfg, store, c).None? ==> clear)
    && (InZone(cfg, v, n, c) && Owner(cfg, store, c) == Some(v) ==> !Occupied(cfg, store, c))
  }

  /** Every number that `v` owns is its first candidate not passed over, as far as the zone goes. */
  ghost predicate ClaimsPassed(cfg: Config, store: Store, v: Value, n: nat) {
    forall c :: IsSurrogate(c) && Owner(cfg, store, c) == Some(v) ==> Passed(cfg, store, v, n, c)
  }

  ghost predicate QuietFor(cfg: Config, v: Value, n: nat, w: World) {
    && WorldOk(cfg, w) && ClaimsPassed(cfg, w.store, v, n)
    && forall id :: id in w.clients && w.clients[id].value == v ==> QuietClient(cfg, w.store, n, w.clients[id])
  }

  /** Before its first call, and without claims of its own, a string is quiet in every world. */
  lemma UnknownIsQuiet(cfg: Config, v: Value, n: nat, w: World)
    requires WorldOk(cfg, w) && IsUnknown(cfg, v, w)
    ensures QuietFor(cfg, v, n, w)
  {
  }

  predicate IsChecking(cl: Client, v: Value, c: int) {
    && cl.value == v
    && (cl.phase == CheckVertex(c) || cl.phase == CheckOutEdges(c) || cl.phase == CheckInEdges(c))
  }

  /**
   * A data write that spares `v` leaves its candidates in the zone alone, except those that other strings own, and
   * those that `v` owns itself while no call for `v` is checking them.
   */
  ghost predicate Spares(cfg: Config, v: Value, n: nat, w: World, store': Store) {
    forall c :: InZone(cfg, v, n, c) ==>
      && (Owner(cfg, w.store, c).None? ==> SameAt(cfg, w.store, store', c))
      && (forall id :: id in w.clients && IsChecking(w.clients[id], v, c) && Owner(cfg, w.store, c) == Some(v) ==>
            SameAt(cfg, w.store, store', c))
  }

  /** What any quiet step does to the store. */
  ghost predicate ZoneGrowth(cfg: Config, v: Value, n: nat, store: Store, store': Store) {
    && Grows(cfg, store, store')
    && forall c :: InZone(cfg, v, n, c) && Owner(cfg, store, c).None? ==>
      SameAt(cfg, store, store', c) && (Owner(cfg, store', c) == Some(v) ==> !Occupied(cfg, store, c))
  }

  lemma StaysBlocked(cfg: Config, store: Store, store': Store, v: Value, n: nat, m: nat)
    requires ZoneGrowth(cfg, v, n, store, store') && BlockedBefore(cfg, store, v, m) && m <= n + 1
    ensures BlockedBefore(cfg, store', v, m)
  {
    forall d | IsSurrogate(d) && ProbeIndex(cfg, v, d) < m ensures Blocked(cfg, store', v, d) {
      assert Blocked(cfg, store, v, d) && InZone(cfg, v, n, d);
    }
  }

  lemma StaysPassed(cfg: Config, store: Store, store': Store, v: Value, n: nat, c: int)
    requires ZoneGrowth(cfg, v, n, store, store') && IsSurrogate(c) && Passed(cfg, store, v, n, c)
    ensures Passed(cfg, store', v, n, c)
  {
    StaysBlocked(cfg, store, store', v, n, if ProbeIndex(cfg, v, c) <= n then ProbeIndex(cfg, v, c) else n + 1);
  }

  lemma QuietClientGrows(cfg: Config, store: Store, store': Store, n: nat, cl: Client)
    requires QuietClient(cfg, store, n, cl) && ZoneGrowth(cfg, cl.value, n, store, store')
    requires forall c :: InZone(cfg, cl.value, n, c) && IsChecking(cl, cl.value, c) ==>
               Owner(cfg, store, c) != Some(cl.value) || SameAt(cfg, store, store', c)
    ensures QuietClient(cfg, store', n, cl)
  {
    hide Passed, BlockedBefore;
    match cl.phase
    case Probe(c) => StaysPassed(cfg, store, store', cl.value, n, c);
    case CheckVertex(c) => StaysPassed(cfg, store, store', cl.value, n, c);
    case CheckOutEdges(c) => StaysPassed(cfg, store, store', cl.value, n, c);
    case CheckInEdges(c) => StaysPassed(cfg, store, store', cl.value, n, c);
    case Claim(c) => StaysPassed(cfg, store, store', cl.value, n, c);
    case Failed(e) =>
      if e == ConflictingForward || e == Exhausted { StaysBlocked(cfg, store, store', cl.value, n, n + 1); }
    case _ =>
  }

  /** A step of any call changes no occupancy. */
  lemma StepKeepsOccupancy(cfg: Config, store: Store, cl: Client)
    requires Running(cl.phase) && CandidateInRange(cl.phase)
    ensures forall c :: SameAt(cfg, store, NextStore(cfg, store, cl), c)
  {
    hide Owner, Forward, HasVertex, HasOutEdge, HasInEdge;
    match cl.phase
    case Claim(c) =>
      BuildersMakeMappingKeys(cfg.space, cl.value, c);
      MappingWritesKeepData(cfg, store, ReverseKey(cfg.space, c), cl.value);
    case Publish(c) =>
      BuildersMakeMappingKeys(cfg.space, cl.value, c);
      MappingWritesKeepData(cfg, store, ForwardKey(cfg.space, cl.value), EncodeI64(c));
    case _ =>
  }

  /** And its claims for `v` in the zone are of free numbers. */
  lemma StepIsQuiet(cfg: Config, store: Store, v: Value, n: nat, cl: Client)
    requires Consistent(cfg, store) && ClientOk(cfg, store, cl) && Running(cl.phase)
    requires cl.value == v ==> QuietClient(cfg, store, n, cl)
    ensures ZoneGrowth(cfg, v, n, store, NextStore(cfg, store, cl))
  {
    StepGrows(cfg, store, cl);
    StepKeepsOccupancy(cfg, store, cl);
    hide Consistent, Grows, SameAt, Passed, NextStore, Occupied, Owner;
    forall c | InZone(cfg, v, n, c) && Owner(cfg, store, c).None? && Owner(cfg, NextStore(cfg, store, cl), c) == Some(v)
      ensures !Occupied(cfg, store, c)
    {
      NewOwnerIsClaimant(cfg, store, cl, c);
    }
  }

  /** Passing over one more candidate. */
  lemma PassOver(cfg: Config, store: Store, v: Value, n: nat, c: int)
    requires IsSurrogate(c) && Passed(cfg, store, v, n, c)
    requires InZone(cfg, v, n, c) ==> Blocked(cfg, store, v, c)
    ensures QuietClient(cfg, store, n, Client(v, true, Advance(cfg, v, c)))
  {
    ProbeOrder(cfg, v, c);
    forall d | InZone(cfg, v, n, d) && ProbeIndex(cfg, v, d) <= ProbeIndex(cfg, v, c)
      ensures Blocked(cfg, store, v, d)
    {
      if ProbeIndex(cfg, v, d) == ProbeIndex(cfg, v, c) { ProbeIndexInjective(cfg, v, c, d); }
    }
  }

  /** A string has at most one claim, published or not, unless all of its candidates in the zone were passed over. */
  lemma ClaimIsUnique(cfg: Config, store: Store, v: Value, n: nat, c: int, d: int)
    requires ClaimsPassed(cfg, store, v, n) && IsSurrogate(c) && IsSurrogate(d)
    requires Owner(cfg, store, c) == Some(v) && Owner(cfg, store, d) == Some(v)
    ensures c == d || BlockedBefore(cfg, store, v, n + 1)
  {
    assert Passed(cfg, store, v, n, c) && Passed(cfg, store, v, n, d);
    assert !Blocked(cfg, store, v, c) && !Blocked(cfg, store, v, d);
    if ProbeIndex(cfg, v, c) == ProbeIndex(cfg, v, d) { ProbeIndexInjective(cfg, v, c, d); }
  }

  lemma BeginsQuietly(cfg: Config, store: Store, n: nat, cl: Client)
    requires Consistent(cfg, store) && ClientOk(cfg, store, cl) && (cl.phase.ReadForward? || cl.phase.ReadReverse?)
    ensures QuietClient(cfg, store, n, cl.(phase := NextPhase(cfg, store, cl)))
  {
    ProbeOrder(cfg, cl.value, InitialCandidate(cfg, cl.value));
    hide Blocked;
  }

  lemma PublishesQuietly(cfg: Config, store: Store, n: nat, cl: Client)
    requires Consistent(cfg, store) && ClaimsPassed(cfg, store, cl.value, n)
    requires ClientOk(cfg, store, cl) && cl.phase.Publish?
    ensures QuietClient(cfg, store, n, cl.(phase := NextPhase(cfg, store, cl)))
  {
    if Forward(cfg, store, cl.value).Some? {
      var d := DecodeI64(Forward(cfg, store, cl.value).value).value;
      hide ClaimsPassed, BlockedBefore, Passed;
      ClaimIsUnique(cfg, store, cl.value, n, cl.phase.c, d);
    }
  }

  lemma StepKeepsQuietClient(cfg: Config, store: Store, n: nat, cl: Client)
    requires Consistent(cfg, store) && ClaimsPassed(cfg, store, cl.value, n)
    requires ClientOk(cfg, store, cl) && QuietClient(cfg, store, n, cl) && Running(cl.phase)
    ensures QuietClient(cfg, store, n, cl.(phase := NextPhase(cfg, store, cl)))
  {
    hide BlockedBefore, ClaimsPassed, Consistent, Passed;
    if cl.phase.ReadForward? || cl.phase.ReadReverse? {
      BeginsQuietly(cfg, store, n, cl);
    } else if cl.phase.Publish? {
      PublishesQuietly(cfg, store, n, cl);
    } else {
      hide Owner, HasVertex, HasOutEdge, HasInEdge, InitialCandidate, NextCandidate, ProbeIndex;
      if NextPhase(cfg, store, cl) == Advance(cfg, cl.value, cl.phase.c) {
        PassOver(cfg, store, cl.value, n, cl.phase.c);
      }
    }
  }

  lemma StepKeepsClaims(cfg: Config, store: Store, v: Value, n: nat, cl: Client)
    requires ClientOk(cfg, store, cl) && Running(cl.phase) && (cl.value == v ==> QuietClient(cfg, store, n, cl))
    requires ClaimsPassed(cfg, store, v, n) && ZoneGrowth(cfg, v, n, store, NextStore(cfg, store, cl))
    ensures ClaimsPassed(cfg, NextStore(cfg, store, cl), v, n)
  {
    var store' := NextStore(cfg, store, cl);
    forall c | IsSurrogate(c) && Owner(cfg, store', c) == Some(v) ensures Passed(cfg, store', v, n, c) {
      if Owner(cfg, store, c).None? { NewOwnerIsClaimant(cfg, store, cl, c); }
      hide Passed;
      StaysPassed(cfg, store, store', v, n, c);
    }
  }

  lemma NewOwnerIsClaimant(cfg: Config, store: Store, cl: Client, c: int)
    requires Running(cl.phase) && CandidateInRange(cl.phase) && IsSurrogate(c)
    requires Owner(cfg, store, c).None? && Owner(cfg, NextStore(cfg, store, cl), c).Some?
    ensures cl.phase == Claim(c) && Owner(cfg, NextStore(cfg, store, cl), c) == Some(cl.value)
  {
    match cl.phase
    case Claim(d) => ClaimEffect(cfg, store, d, cl.value);
    case Publish(d) => PublishEffect(cfg, store, d, cl.value);
    case _ =>
  }

  ghost predicate QuietNext(cfg: Config, v: Value, n: nat, w: World, a: Action, w': World) {
    Next(cfg, w, a, w') && (a.WriteData? ==> Spares(cfg, v, n, w, w'.store))
  }

  lemma QuietStepKeeps(cfg: Config, v: Value, n: nat, w: World, id: nat, w': World)
    requires QuietFor(cfg, v, n, w) && Next(cfg, w, Step(id), w')
    ensures QuietFor(cfg, v, n, w')
  {
    var cl := w.clients[id];
    assert ClientOk(cfg, w.store, cl);
    NextKeeps(cfg, w, Step(id), w');
    hide ClientOk, Consistent, ClaimsPassed, ZoneGrowth, NextPhase, QuietClient, Occupied, SameAt;
    StepIsQuiet(cfg, w.store, v, n, cl);
    StepKeepsOccupancy(cfg, w.store, cl);
    StepKeepsClaims(cfg, w.store, v, n, cl);
    if cl.value == v { StepKeepsQuietClient(cfg, w.store, n, cl); }
    forall other | other in w'.clients && w'.clients[other].value == v
      ensures QuietClient(cfg, w'.store, n, w'.clients[other])
    {
      QuietClientGrows(cfg, w.store, w'.store, n, if other == id then w'.clients[id] else w.clients[other]);
    }
  }

  lemma QuietWriteKeeps(cfg: Config, v: Value, n: nat, w: World, w': World)
    requires QuietFor(cfg, v, n, w) && QuietNext(cfg, v, n, w, WriteData, w')
    ensures QuietFor(cfg, v, n, w')
  {
    NextKeeps(cfg, w, WriteData, w');
    DataWritesKeepMapping(cfg, w.store, w'.store);
    assert ZoneGrowth(cfg, v, n, w.store, w'.store);
    hide WorldOk, Passed, QuietClient, SameAt, ZoneGrowth, IsSurrogate, ProbeIndex;
    forall c | IsSurrogate(c) && Owner(cfg, w'.store, c) == Some(v) ensures Passed(cfg, w'.store, v, n, c) {
      StaysPassed(cfg, w.store, w'.store, v, n, c);
    }
    forall id | id in w'.clients && w'.clients[id].value == v ensures QuietClient(cfg, w'.store, n, w'.clients[id]) {
      QuietClientGrows(cfg, w.store, w'.store, n, w.clients[id]);
    }
  }

  lemma QuietNextKeeps(cfg: Config, v: Value, n: nat, w: World, a: Action, w': World)
    requires QuietFor(cfg, v, n, w) && QuietNext(cfg, v, n, w, a, w')
    ensures QuietFor(cfg, v, n, w')
  {
    match a
    case Step(id) => QuietStepKeeps(cfg, v, n, w, id, w');
    case WriteData => QuietWriteKeeps(cfg, v, n, w, w');
    case _ => NextKeeps(cfg, w, a, w');
  }

  ghost predicate QuietlyFollows(cfg: Config, v: Value, n: nat, w: World, w': World) {
    exists a :: QuietNext(cfg, v, n, w, a, w')
  }

  ghost predicate IsQuietRun(cfg: Config, v: Value, n: nat, run: seq<World>) {
    run != [] && forall i {:trigger run[i]} :: 0 <= i < |run| - 1 ==> QuietlyFollows(cfg, v, n, run[i], run[i + 1])
  }

  /** While data writes spare the first candidates of `v`, its claims and calls stay in probe order there. */
  lemma {:induction false} QuietRunIsSafe(cfg: Config, v: Value, n: nat, run: seq<World>, i: nat)
    requires IsQuietRun(cfg, v, n, run) && QuietFor(cfg, v, n, run[0]) && i < |run|
    ensures QuietFor(cfg, v, n, run[i])
  {
    hide QuietFor, QuietNext;
    if i == 0 {
    } else {
      QuietRunIsSafe(cfg, v, n, run, i - 1);
      assert QuietlyFollows(cfg, v, n, run[i - 1], run[i]);
      var a :| QuietNext(cfg, v, n, run[i - 1], a, run[i]);
      QuietNextKeeps(cfg, v, n, run[i - 1], a, run[i]);
    }
  }

  lemma QuietRunIsRun(cfg: Config, v: Value, n: nat, run: seq<World>)
    requires IsQuietRun(cfg, v, n, run)
    ensures IsRun(cfg, run)
  {
    forall i | 0 <= i < |run| - 1 ensures Follows(cfg, run[i], run[i + 1]) {
      assert QuietlyFollows(cfg, v, n, run[i], run[i + 1]);
      var a :| QuietNext(cfg, v, n, run[i], a, run[i + 1]);
    }
  }

  /**
   * Crash recovery: once `v` has claimed `c`, whether or not the claimant lived to publish it,
   * every later successful call for `v` returns `c`, and none reports a conflict or exhaustion,
   * if data writes spare the candidates of `v` up to `c`.
   */
  lemma ClaimIsRecovered(cfg: Config, run: seq<World>, i: nat, j: nat, v: Value, c: int, id: nat)
    requires IsSurrogate(c) && i <= j < |run|
    requires IsQuietRun(cfg, v, ProbeIndex(cfg, v, c), run) && QuietFor(cfg, v, ProbeIndex(cfg, v, c), run[0])
    requires Owner(cfg, run[i].store, c) == Some(v)
    requires id in run[j].clients && run[j].clients[id].value == v
    ensures run[j].clients[id].phase != Failed(ConflictingForward)
    ensures run[j].clients[id].phase != Failed(Exhausted)
    ensures forall x :: run[j].clients[id].phase == Returned(Some(x)) ==> x == c
    ensures forall x :: run[j].clients[id].phase == Publish(x) ==> x == c
  {
    var n := ProbeIndex(cfg, v, c);
    QuietRunIsRun(cfg, v, n, run);
    RunIsSafe(cfg, run, i, j);
    QuietRunIsSafe(cfg, v, n, run, j);
    var cl := run[j].clients[id];
    assert ClientOk(cfg, run[j].store, cl) && QuietClient(cfg, run[j].store, n, cl);
    assert !Blocked(cfg, run[j].store, v, c);
    forall x | cl.phase == Returned(Some(x)) || cl.phase == Publish(x) ensures x == c {
      ClaimIsUnique(cfg, run[j].store, v, n, x, c);
    }
  }

  /** No call for `v` has begun, and no number is its own. */
  ghost predicate IsUnknown(cfg: Config, v: Value, w: World) {
    && (forall id :: id in w.clients ==> w.clients[id].value != v)
    && forall c :: IsSurrogate(c) ==> Owner(cfg, w.store, c) != Some(v)
  }

  /** From any consistent world that does not know `v` yet, nothing else is needed for its claim to be recovered. */
  lemma NewStringIsRecovered(cfg: Config, run: seq<World>, i: nat, j: nat, v: Value, c: int, id: nat)
    requires IsSurrogate(c) && i <= j < |run| && IsQuietRun(cfg, v, ProbeIndex(cfg, v, c), run)
    requires WorldOk(cfg, run[0]) && IsUnknown(cfg, v, run[0])
    requires Owner(cfg, run[i].store, c) == Some(v) && id in run[j].clients && run[j].clients[id].value == v
    ensures run[j].clients[id].phase != Failed(ConflictingForward)
    ensures run[j].clients[id].phase != Failed(Exhausted)
    ensures forall x :: run[j].clients[id].phase == Returned(Some(x)) ==> x == c
  {
    hide QuietFor, IsQuietRun, IsUnknown, WorldOk, Owner, ProbeIndex;
    UnknownIsQuiet(cfg, v, ProbeIndex(cfg, v, c), run[0]);
    ClaimIsRecovered(cfg, run, i, j, v, c, id);
  }

  // ===== One call without interference =====

  /** `c` is the first candidate of `v` that is free or already its own. */
  ghost predicate FirstFree(cfg: Config, store: Store, v: Value, c: int) {
    IsSurrogate(c) && !Blocked(cfg, store, v, c) && BlockedBefore(cfg, store, v, ProbeIndex(cfg, v, c))
  }

  /** Both directions of the mapping between `v` and `c`. */
  function Mapped(cfg: Config, store: Store, v: Value, c: int): Store
    requires IsSurrogate(c)
  {
    store[ReverseKey(cfg.space, c) := v][ForwardKey(cfg.space, v) := EncodeI64(c)]
  }

  /** How an undisturbed call that started at `store` stands when it has reached `phase` and `store'`. */
  ghost predicate Undisturbed(cfg: Config, store: Store, v: Value, create: bool, phase: Phase, store': Store) {
    && CandidateInRange(phase)
    && (!phase.ReadForward? && phase != Failed(TooLong) ==> |v| <= cfg.maxLen)
    && (!phase.Publish? && !phase.Returned? ==> store' == store)
    && match phase
       case ReadForward => true
       case ReadReverse(encoded) => Forward(cfg, store, v) == Some(encoded)
       case Publish(c) =>
         && create && Forward(cfg, store, v).None? && FirstFree(cfg, store, v, c)
         && store' == store[ReverseKey(cfg.space, c) := v]
       case Returned(_) | Failed(_) => Outcome(cfg, store, v, create, phase, store')
       case Crashed => false
       case Probe(c) => Searching(cfg, store, v, create, c)
       case CheckVertex(c) => Searching(cfg, store, v, create, c) && Owner(cfg, store, c).None?
       case CheckOutEdges(c) =>
         Searching(cfg, store, v, create, c) && Owner(cfg, store, c).None? && !HasVertex(cfg, store, c)
       case CheckInEdges(c) =>
         && Searching(cfg, store, v, create, c) && Owner(cfg, store, c).None?
         && !HasVertex(cfg, store, c) && !HasOutEdge(cfg, store, c)
       case Claim(c) =>
         Searching(cfg, store, v, create, c) && Owner(cfg, store, c).None? && !Occupied(cfg, store, c)
  }

  ghost predicate Searching(cfg: Config, store: Store, v: Value, create: bool, c: int)
    requires IsSurrogate(c)
  {
    create && Forward(cfg, store, v).None? && BlockedBefore(cfg, store, v, ProbeIndex(cfg, v, c))
  }

  /** What the whole call answers, and the store it leaves. */
  ghost predicate Outcome(cfg: Config, store: Store, v: Value, create: bool, phase: Phase, store': Store) {
    if |v| > cfg.maxLen then phase == Failed(TooLong) && store' == store
    else if Forward(cfg, store, v).Some? then
      phase == ForwardFound(cfg, store, v, Forward(cfg, store, v).value) && store' == store
    else if !create then phase == Returned(None) && store' == store
    else
      match phase
      case Returned(Some(c)) => FirstFree(cfg, store, v, c) && store' == Mapped(cfg, store, v, c)
      case Failed(e) => e == Exhausted && BlockedBefore(cfg, store, v, TWO_63) && store' == store
      case _ => false
  }

  /** Probes still to make, then accesses still to make at this candidate. */
  ghost function Remaining(cfg: Config, v: Value, phase: Phase): (nat, nat)
    requires CandidateInRange(phase)
  {
    match phase
    case ReadForward => (TWO_63 + 1, 0)
    case ReadReverse(_) => (0, 1)
    case Probe(c) => (TWO_63 - ProbeIndex(cfg, v, c), 5)
    case CheckVertex(c) => (TWO_63 - ProbeIndex(cfg, v, c), 4)
    case CheckOutEdges(c) => (TWO_63 - ProbeIndex(cfg, v, c), 3)
    case CheckInEdges(c) => (TWO_63 - ProbeIndex(cfg, v, c), 2)
    case Claim(c) => (TWO_63 - ProbeIndex(cfg, v, c), 1)
    case Publish(_) => (0, 1)
    case _ => (0, 0)
  }

  lemma AdvanceUndisturbed(cfg: Config, store: Store, v: Value, c: int)
    requires |v| <= cfg.maxLen && Forward(cfg, store, v).None? && IsSurrogate(c)
    requires BlockedBefore(cfg, store, v, ProbeIndex(cfg, v, c)) && Blocked(cfg, store, v, c)
    ensures Undisturbed(cfg, store, v, true, Advance(cfg, v, c), store)
    ensures Remaining(cfg, v, Advance(cfg, v, c)).0 < TWO_63 - ProbeIndex(cfg, v, c)
  {
    PassOver(cfg, store, v, TWO_63 - 1, c);
    ProbeOrder(cfg, v, c);
  }

  lemma StepUndisturbed(cfg: Config, store: Store, v: Value, create: bool, phase: Phase, store': Store)
    requires Undisturbed(cfg, store, v, create, phase, store') && Running(phase)
    ensures var cl := Client(v, create, phase);
            && Undisturbed(cfg, store, v, create, NextPhase(cfg, store', cl), NextStore(cfg, store', cl))
            && var (m, n), (m', n') := Remaining(cfg, v, phase), Remaining(cfg, v, NextPhase(cfg, store', cl));
               m' < m || (m' == m && n' < n)
  {
    var cl := Client(v, create, phase);
    if phase.ReadForward? || phase.ReadReverse? {
    } else if phase.Publish? {
      ClaimEffect(cfg, store, phase.c, v);
    } else if NextPhase(cfg, store', cl) == Advance(cfg, v, phase.c) {
      AdvanceUndisturbed(cfg, store, v, phase.c);
    } else {
      hide BlockedBefore;
      assert phase.Probe? && Owner(cfg, store, phase.c).Some? ==> store[ReverseKey(cfg.space, phase.c) := v] == store;
    }
  }

  method ResolveVid(db: KvStore, cfg: Config, value: Value, create: bool) returns (phase: Phase)
    modifies db
    ensures phase.Returned? || phase.Failed?
    ensures Outcome(cfg, old(db.kv), value, create, phase, db.kv)
  {
    phase := ReadForward;
    while Running(phase)
      invariant Undisturbed(cfg, old(db.kv), value, create, phase, db.kv)
      decreases Remaining(cfg, value, phase).0, Remaining(cfg, value, phase).1
    {
      StepUndisturbed(cfg, old(db.kv), value, create, phase, db.kv);
      var cl := Client(value, create, phase);
      phase, db.kv := NextPhase(cfg, db.kv, cl), NextStore(cfg, db.kv, cl);
    }
  }

  /** A retry after a crash finds the claim that was left behind and publishes it. */
  lemma RetryPublishesClaim(cfg: Config, store: Store, v: Value, c: int, phase: Phase, store': Store)
    requires |v| <= cfg.maxLen && Forward(cfg, store, v).None?
    requires IsSurrogate(c) && Owner(cfg, store, c) == Some(v)
    requires BlockedBefore(cfg, store, v, ProbeIndex(cfg, v, c))
    requires Outcome(cfg, store, v, true, phase, store')
    ensures phase == Returned(Some(c)) && store' == store[ForwardKey(cfg.space, v) := EncodeI64(c)]
  {
    assert !Blocked(cfg, store, v, c);
    var x := phase.answer.value;
    assert ProbeIndex(cfg, v, x) == ProbeIndex(cfg, v, c);
    ProbeIndexInjective(cfg, v, x, c);
    assert store[ReverseKey(cfg.space, c) := v] == store;
  }

  /** A string that has a number keeps it: resolving again answers the same and writes nothing. */
  lemma ResolveTwice(cfg: Config, store: Store, v: Value, c: int, store': Store, create: bool, phase: Phase,
                     store'': Store)
    requires Outcome(cfg, store, v, true, Returned(Some(c)), store')
    requires Outcome(cfg, store', v, create, phase, store'')
    ensures phase == Returned(Some(c)) && store'' == store'
  {
    if Forward(cfg, store, v).None? {
      ClaimEffect(cfg, store, c, v);
      PublishEffect(cfg, store[ReverseKey(cfg.space, c) := v], c, v);
      I64RoundTrip(c);
    }
  }

  // ===== Displaying a surrogate =====

  datatype Shown = Text(value: Value) | Number(i: int) | Refused

  function DisplayVid(cfg: Config, store: Store, i: int): Shown {
    if i < 0 then
      match Owner(cfg, store, i)
      case Some(value) => Text(value)
      case None => Refused
    else if Owner(cfg, store, i).None? && Occupied(cfg, store, i) then Number(i)
    else Refused
  }

  /** A number handed out for a string is shown as that string, at any later time of any run. */
  lemma DisplayUndoesResolve(cfg: Config, run: seq<World>, i: nat, j: nat, id: nat, v: Value, x: int)
    requires IsRun(cfg, run) && WorldOk(cfg, run[0]) && i <= j < |run| && Answered(run[i], id, v, x)
    ensures DisplayVid(cfg, run[j].store, x) == Text(v)
  {
    RunIsSafe(cfg, run, i, j);
    AnswersAgree(cfg, run, i, j, id, v, x, id, v, x);
  }

  // ===== What a data write under a candidate being checked can do =====

  ghost function Last(run: seq<World>): World {
    if run == [] then World(map[], map[]) else run[|run| - 1]
  }

  lemma ExtendRun(cfg: Config, run: seq<World>, a: Action, w: World) returns (run': seq<World>)
    requires IsRun(cfg, run) && Next(cfg, Last(run), a, w)
    ensures IsRun(cfg, run') && run <= run' && Last(run') == w
  {
    run' := run + [w];
    forall i | 0 <= i < |run'| - 1 ensures Follows(cfg, run'[i], run'[i + 1]) {
      assert i < |run| - 1 ==> Follows(cfg, run[i], run[i + 1]);
    }
  }

  lemma TakeStep(cfg: Config, run: seq<World>, id: nat, phase: Phase, store: Store) returns (run': seq<World>)
    requires IsRun(cfg, run) && id in Last(run).clients
    requires Running(Last(run).clients[id].phase) && CandidateInRange(Last(run).clients[id].phase)
    requires phase == NextPhase(cfg, Last(run).store, Last(run).clients[id])
    requires store == NextStore(cfg, Last(run).store, Last(run).clients[id])
    ensures IsRun(cfg, run') && run <= run'
    ensures Last(run') == World(store, Last(run).clients[id := Last(run).clients[id].(phase := phase)])
  {
    var cl := Last(run).clients[id];
    run' := ExtendRun(cfg, run, Step(id), World(store, Last(run).clients[id := cl.(phase := phase)]));
  }

  /** A client finds its candidate without owner and without graph data. */
  lemma PassChecks(cfg: Config, run: seq<World>, id: nat, c: int) returns (run': seq<World>)
    requires IsRun(cfg, run) && id in Last(run).clients && Last(run).clients[id].phase == Probe(c) && IsSurrogate(c)
    requires Owner(cfg, Last(run).store, c).None? && !Occupied(cfg, Last(run).store, c)
    ensures IsRun(cfg, run') && run <= run'
    ensures Last(run') == World(Last(run).store, Last(run).clients[id := Last(run).clients[id].(phase := Claim(c))])
  {
    hide IsRun, Last;
    var w := Last(run);
    run' := TakeStep(cfg, run, id, CheckVertex(c), w.store);
    run' := TakeStep(cfg, run', id, CheckOutEdges(c), w.store);
    run' := TakeStep(cfg, run', id, CheckInEdges(c), w.store);
    run' := TakeStep(cfg, run', id, Claim(c), w.store);
    assert Last(run').clients == w.clients[id := w.clients[id].(phase := Claim(c))];
  }

  lemma EmptyStore(cfg: Config, v: Value, c: int)
    ensures Forward(cfg, map[], v).None? && Owner(cfg, map[], c).None? && !Occupied(cfg, map[], c)
  {
  }

  /** Two calls for one string start on an empty store; one is ahead by a step. */
  lemma BothProbe(cfg: Config, v: Value, c: int) returns (run: seq<World>)
    requires |v| <= cfg.maxLen && c == InitialCandidate(cfg, v)
    ensures IsRun(cfg, run) && run != [] && run[0] == World(map[], map[])
    ensures Last(run) == World(map[], map[0 := Client(v, true, CheckVertex(c)), 1 := Client(v, true, Probe(c))])
  {
    EmptyStore(cfg, v, c);
    var begun := Client(v, true, ReadForward);
    run := [World(map[], map[])];
    hide InitialCandidate, Forward, Owner, HasVertex, HasOutEdge, HasInEdge;
    run := ExtendRun(cfg, run, Arrive(0, v, true), World(map[], map[0 := begun]));
    run := ExtendRun(cfg, run, Arrive(1, v, true), World(map[], map[0 := begun, 1 := begun]));
    hide IsRun, Last;
    run := TakeStep(cfg, run, 0, Probe(c), map[]);
    run := TakeStep(cfg, run, 0, CheckVertex(c), map[]);
    run := TakeStep(cfg, run, 1, Probe(c), map[]);
    assert Last(run).clients == map[0 := Client(v, true, CheckVertex(c)), 1 := Client(v, true, Probe(c))];
  }

  /** The winner claims and publishes `c` while the loser is about to check it. */
  lemma WinnerPublishes(cfg: Config, v: Value, c: int) returns (run: seq<World>)
    requires |v| <= cfg.maxLen && c == InitialCandidate(cfg, v)
    ensures IsRun(cfg, run) && run != [] && run[0] == World(map[], map[])
    ensures Last(run) == World(Mapped(cfg, map[], v, c),
                               map[0 := Client(v, true, CheckVertex(c)), 1 := Client(v, true, Returned(Some(c)))])
  {
    run := BothProbe(cfg, v, c);
    EmptyStore(cfg, v, c);
    ClaimEffect(cfg, map[], c, v);
    hide InitialCandidate, Forward, Owner, HasVertex, HasOutEdge, HasInEdge, IsRun, Last, ForwardKey,
      ReverseKey, EncodeI64;
    run := PassChecks(cfg, run, 1, c);
    var claimed: Store := map[][ReverseKey(cfg.space, c) := v];
    run := TakeStep(cfg, run, 1, Publish(c), claimed);
    run := TakeStep(cfg, run, 1, Returned(Some(c)), Mapped(cfg, map[], v, c));
    assert Last(run).clients == map[0 := Client(v, true, CheckVertex(c)), 1 := Client(v, true, Returned(Some(c)))];
  }

  /** The store after the winner has also written its vertex. */
  function WonStore(cfg: Config, v: Value, c: int): Store
    requires IsSurrogate(c)
  {
    Mapped(cfg, map[], v, c)[VertexKey(cfg.space, c) := []]
  }

  lemma WonStoreReads(cfg: Config, v: Value, c: int, d: int)
    requires IsSurrogate(c) && IsSurrogate(d) && c != d
    ensures var store := WonStore(cfg, v, c);
            && KeepsMapping(cfg, Mapped(cfg, map[], v, c), store)
            && MappedTo(cfg, store, v) == Some(c) && Owner(cfg, store, d).None?
            && HasVertex(cfg, store, c) && !Occupied(cfg, store, d)
  {
    var published := Mapped(cfg, map[], v, c);
    ClaimEffect(cfg, map[], c, v);
    PublishEffect(cfg, map[][ReverseKey(cfg.space, c) := v], c, v);
    DataWriteIsAllowed(cfg, published, c);
    DataWritesKeepMapping(cfg, published, WonStore(cfg, v, c));
    OnlyOneOccupied(cfg, v, c, d, WonStore(cfg, v, c));
    I64RoundTrip(c);
  }

  lemma NextDiffers(c: int)
    requires IsSurrogate(c)
    ensures NextCandidate(c) != c
  {
  }

  /** The winner's vertex is written while the loser is checking the shared candidate: the loser moves on. */
  lemma LoserMovesOn(cfg: Config, v: Value, c: int, d: int) returns (run: seq<World>)
    requires |v| <= cfg.maxLen && c == InitialCandidate(cfg, v) && d == NextCandidate(c)
    ensures IsRun(cfg, run) && run != [] && run[0] == World(map[], map[])
    ensures Last(run) == World(WonStore(cfg, v, c),
                               map[0 := Client(v, true, Claim(d)), 1 := Client(v, true, Returned(Some(c)))])
  {
    hide WonStore, InitialCandidate, NextCandidate, Forward, Owner, HasVertex, HasOutEdge, HasInEdge, IsRun, Last,
      ForwardKey, ReverseKey, EncodeI64, DecodeI64, KeepsMapping;
    NextDiffers(c);
    var store := WonStore(cfg, v, c);
    WonStoreReads(cfg, v, c, d);
    run := WinnerPublishes(cfg, v, c);
    run := ExtendRun(cfg, run, WriteData, World(store, Last(run).clients));
    run := TakeStep(cfg, run, 0, Probe(d), store);
    run := PassChecks(cfg, run, 0, d);
    assert Last(run).clients == map[0 := Client(v, true, Claim(d)), 1 := Client(v, true, Returned(Some(c)))];
  }

  /** Two concurrent inserts of one string: the one that moved on claims the next number and fails. */
  lemma RaceCanConflict(cfg: Config, v: Value) returns (run: seq<World>, orphan: int)
    requires |v| <= cfg.maxLen
    ensures IsRun(cfg, run) && run != [] && run[0] == World(map[], map[])
    ensures 0 in Last(run).clients && Last(run).clients[0] == Client(v, true, Failed(ConflictingForward))
    ensures 1 in Last(run).clients && Last(run).clients[1] == Client(v, true, Returned(Some(InitialCandidate(cfg, v))))
    ensures IsSurrogate(orphan) && orphan != InitialCandidate(cfg, v) && Owner(cfg, Last(run).store, orphan) == Some(v)
  {
    hide WonStore, InitialCandidate, NextCandidate, Forward, Owner, HasVertex, HasOutEdge, HasInEdge, IsRun, Last,
      ForwardKey, ReverseKey, EncodeI64, DecodeI64, KeepsMapping;
    var c := InitialCandidate(cfg, v);
    orphan := NextCandidate(c);
    NextDiffers(c);
    var store := WonStore(cfg, v, c);
    var claimed := store[ReverseKey(cfg.space, orphan) := v];
    WonStoreReads(cfg, v, c, orphan);
    ClaimEffect(cfg, store, orphan, v);
    run := LoserMovesOn(cfg, v, c, orphan);
    run := TakeStep(cfg, run, 0, Publish(orphan), claimed);
    run := TakeStep(cfg, run, 0, Failed(ConflictingForward), claimed);
  }

  lemma DataWriteIsAllowed(cfg: Config, store: Store, c: int)
    ensures KeepsMapping(cfg, store, store[VertexKey(cfg.space, c) := []])
  {
    forall k | IsMappingKey(cfg.space, k) ensures k != VertexKey(cfg.space, c) {
      MappingKeysStandApart(cfg.space, k, c);
    }
  }

  lemma OnlyOneOccupied(cfg: Config, v: Value, c: int, d: int, store: Store)
    requires IsSurrogate(c) && IsSurrogate(d) && c != d
    requires store.Keys == {ReverseKey(cfg.space, c), ForwardKey(cfg.space, v), VertexKey(cfg.space, c)}
    ensures !Occupied(cfg, store, d)
  {
    BuildersMakeMappingKeys(cfg.space, v, c);
    MappingKeysStandApart(cfg.space, ReverseKey(cfg.space, c), d);
    MappingKeysStandApart(cfg.space, ForwardKey(cfg.space, v), d);
    VertexKeyStandsApart(cfg.space, c, d);
  }
}