/**
 Rewinding the chain to a lower head. Every durable write is recorded, so that what a
 crash after any of them would leave behind can be stated.
 */
module SetHeads {
  import opened Options
  import opened Chain
  import opened Rewind

  /**
   The database: the key-value part, and the append-only ancient store with the frozen
   bottom of the canonical chain, whose hash table is indexed by number.
   */
  datatype Data = Data(headers: Store, numbers: map<Hash, nat>, bodies: set<Hash>, canonical: map<nat, Hash>,
                       ancient: Store, ancientHashes: seq<Hash>)

  /** The data together with the persisted head markers. */
  datatype Db = Db(data: Data, headHeader: Hash, headBlock: Hash, headFast: Hash)

  /** Every header that can be read, from either store. */
  function View(db: Data): Store {
    db.headers + db.ancient
  }

  /** The marker at a number, the ancient store taking precedence. */
  function ReadCanonical(db: Data, n: nat): Option<Hash> {
    if n < |db.ancientHashes| then Some(db.ancientHashes[n])
    else if n in db.canonical then Some(db.canonical[n])
    else None
  }

  /** A head marker that survives a restart: header, number entry and ancestry are all readable. */
  ghost predicate Anchored(db: Data, g: Hash, h: Hash) {
    && Rooted(View(db), g, h)
    && forall x | x in Line(View(db), g, h) :: x in db.numbers && x in View(db) && db.numbers[x] == View(db)[x].number
  }

  ghost predicate Durable(db: Db, g: Hash) {
    Anchored(db.data, g, db.headHeader) && Anchored(db.data, g, db.headBlock) && Anchored(db.data, g, db.headFast)
  }

  /** A header kept in both stores is the same in both, and every readable header has its number entry. */
  ghost predicate StoresAgree(db: Data) {
    && Keyed(db.headers) && (forall h | h in db.headers :: View(db)[h] == db.headers[h])
    && (forall h | h in View(db) :: h in db.numbers && db.numbers[h] == View(db)[h].number)
  }

  /** The ancient store holds the bottom of the line, the key-value store has the markers above it. */
  ghost predicate MarkersMatch(db: Data, line: seq<Hash>) {
    && |db.ancientHashes| <= |line|
    && (forall n | 0 <= n < |db.ancientHashes| :: db.ancientHashes[n] == line[n])
    && (forall h | h in db.ancient :: db.ancient[h].number < |db.ancientHashes|)
    && (forall n | n in db.canonical :: n < |line| && db.canonical[n] == line[n])
    && (forall n | |db.ancientHashes| <= n < |line| :: n in db.canonical)
  }

  /** The stores agree with each other and with the canonical line. */
  ghost predicate Consistent(db: Data, g: Header, line: seq<Hash>) {
    Genesis(View(db), g) && Linked(View(db), g.hash, line) && StoresAgree(db) && MarkersMatch(db, line)
  }

  /** Whether a header is low or old enough to stop at. */
  predicate Reached(h: Header, headBlock: nat, headTime: nat) {
    if headTime > 0 then h.time <= headTime else h.number <= headBlock
  }

  /** All header hashes stored at a height in the key-value store, forks included. */
  function HashesAt(db: Data, n: nat): set<Hash> {
    set h | h in db.headers && db.headers[h].number == n
  }

  /** What the search for a state depends on besides the headers. */
  datatype Config = Config(pathScheme: bool, root: Hash, pivot: Option<nat>, recoverable: set<Hash>)

  /** The header is readable with its whole ancestry. */
  ghost predicate Placed(s: Store, g: Hash, h: Header) {
    h.hash in s && s[h.hash] == h && Rooted(s, g, h.hash)
  }

  /** The head block for a header: the highest acceptable one at or below it, in either scheme. */
  ghost predicate BestHead(s: Store, g: Header, top: Header, cfg: Config, states: set<Hash>, head: Header)
    requires Placed(s, g.hash, top)
  {
    var line := Line(s, g.hash, top.hash);
    && OnLine(s, line)
    && if cfg.pathScheme then
         PathBest(s, line, cfg.root, cfg.root !in states && cfg.root !in cfg.recoverable, cfg.pivot, states,
                  cfg.recoverable, head)
       else HashBest(s, line, cfg.root, SearchLimit(top, cfg.pivot), states, head)
  }

  /** What the search reports for the requested root, in either scheme. */
  ghost predicate RootFound(s: Store, g: Header, top: Header, cfg: Config, states: set<Hash>, head: Header,
                            rootNumber: nat)
    requires Placed(s, g.hash, top)
  {
    var line := Line(s, g.hash, top.hash);
    && OnLine(s, line)
    && if cfg.pathScheme then
         PathReported(s, line, cfg.root, cfg.root !in states && cfg.root !in cfg.recoverable, head.number, rootNumber)
       else RootReported(s, line, cfg.root, head, rootNumber)
  }

  /** A reported number is that of a block of the line with the requested root; 0 reports nothing. */
  ghost predicate Located(s: Store, line: seq<Hash>, root: Hash, rootNumber: nat) {
    rootNumber > 0 ==>
      root != ZERO_HASH && rootNumber < |line| && line[rootNumber] in s && s[line[rootNumber]].root == root
  }

  /** What is found below a header of the line is on the line. */
  lemma FoundIsLocated(s: Store, g: Header, line: seq<Hash>, top: Header, cfg: Config, states: set<Hash>, head: Header,
                       rootNumber: nat)
    requires Linked(s, g.hash, line) && top.number < |line| && top.hash == line[top.number]
    requires Placed(s, g.hash, top) && RootFound(s, g, top, cfg, states, head, rootNumber)
    ensures Located(s, line, cfg.root, rootNumber)
  {
    LinkedIsLine(s, g.hash, line[..top.number + 1]);
  }

  /** The head block for a header, the states available afterwards, and the number of the requested root. */
  function Searched(s: Store, g: Header, top: Header, cfg: Config, states: set<Hash>): (Header, set<Hash>, nat) {
    if cfg.pathScheme then
      var r := PathSearch(s, g, top, cfg.root, cfg.root !in states && cfg.root !in cfg.recoverable, cfg.pivot,
                          states, cfg.recoverable, cfg.root == ZERO_HASH, 0);
      (r.0, if r.2 then states + {r.0.root} else states, r.1)
    else match HashSearch(s, g, top, cfg.root, SearchLimit(top, cfg.pivot), states, cfg.root == ZERO_HASH, 0)
      case Rewound(head, rootNumber) => (head, states, rootNumber)
      case Crashed => (g, states, 0)
  }

  /** The search finds the highest acceptable block, and makes at most its state available. */
  lemma SearchedIsBest(s: Store, g: Header, top: Header, cfg: Config, states: set<Hash>)
    requires Genesis(s, g) && Placed(s, g.hash, top)
    ensures var r := Searched(s, g, top, cfg, states);
            && BestHead(s, g, top, cfg, states, r.0) && RootFound(s, g, top, cfg, states, r.0, r.2)
            && states <= r.1 <= states + {r.0.root} && (r.0 == g || r.0.root in r.1)
  {
    if cfg.pathScheme {
      var noState := cfg.root !in states && cfg.root !in cfg.recoverable;
      PathSearchKeeps(s, g, top, cfg.root, noState, cfg.pivot, states, cfg.recoverable, cfg.root == ZERO_HASH, 0);
      PathSearchBest(s, g, top, cfg.root, noState, cfg.pivot, states, cfg.recoverable);
    } else {
      HashSearchOutcome(s, g, top, cfg.root, SearchLimit(top, cfg.pivot), states, cfg.root == ZERO_HASH, 0);
      HashSearchBest(s, g, top, cfg.root, SearchLimit(top, cfg.pivot), states);
    }
  }

  /** rewindHead: dispatches on the state scheme. On a gap-free chain the result has state or is the genesis. */
  method RewindHead(s: Store, g: Header, top: Header, cfg: Config, states: set<Hash>)
    returns (head: Header, rootNumber: nat, states': set<Hash>)
    requires Genesis(s, g) && Placed(s, g.hash, top)
    ensures Placed(s, g.hash, head) && head.number <= top.number && states <= states'
    ensures head == g || head.root in states'
    ensures BestHead(s, g, top, cfg, states, head) && RootFound(s, g, top, cfg, states, head, rootNumber)
    ensures (head, states', rootNumber) == Searched(s, g, top, cfg, states)
  {
    LineIsLinked(s, g.hash, top.hash);
    if cfg.pathScheme {
      head, rootNumber, states' := RewindPathHead(s, g, top, cfg.root, cfg.pivot, states, cfg.recoverable);
    } else {
      var r := RewindHashHead(s, g, top, cfg.root, cfg.pivot, states);
      head, rootNumber, states' := r.head, r.rootNumber, states;
    }
    LinePrefix(s, g.hash, top.hash, head.number);
  }

  /** Headers up to number m keep their lines as long as the headers up to m stay. */
  lemma {:induction false} LowLinesStay(s: Store, s': Store, g: Hash, h: Hash, m: nat)
    requires Rooted(s, g, h) && s[h].number <= m
    requires forall x | x in s && s[x].number <= m :: x in s' && s'[x] == s[x]
    ensures Rooted(s', g, h) && Line(s', g, h) == Line(s, g, h)
    decreases s[h].number
  {
    if s[h].number > 0 {
      LowLinesStay(s, s', g, s[h].parent, m);
    }
  }

  /** What has been marked for deletion, to be flushed in one batch. */
  datatype Doomed = Doomed(headers: set<Hash>, numbers: set<Hash>, levels: set<nat>, bodies: set<Hash>)

  function Flush(db: Data, d: Doomed): Data {
    db.(headers := db.headers - d.headers, numbers := db.numbers - d.numbers,
        canonical := db.canonical - d.levels, bodies := db.bodies - d.bodies)
  }

  function Truncate(db: Data, m: nat): Data {
    if m + 1 < |db.ancientHashes| then
      db.(ancientHashes := db.ancientHashes[..m + 1],
          ancient := map h | h in db.ancient && db.ancient[h].number <= m :: db.ancient[h])
    else db
  }

  /** Only things above m are marked. */
  ghost predicate Above(db: Data, d: Doomed, m: nat) {
    && (forall h | h in d.headers :: h in db.headers && db.headers[h].number > m)
    && (forall h | h in d.numbers :: h in View(db) && View(db)[h].number > m)
    && (forall n | n in d.levels :: n > m)
  }

  /** Flushing and truncating above m leaves everything up to m readable. */
  lemma LowStays(db: Data, g: Header, line: seq<Hash>, d: Doomed, m: nat)
    requires Consistent(db, g, line) && Above(db, d, m)
    ensures forall x | x in View(db) && View(db)[x].number <= m ::
              && x in View(Flush(db, d)) && View(Flush(db, d))[x] == View(db)[x]
              && x in View(Truncate(Flush(db, d), m)) && View(Truncate(Flush(db, d), m))[x] == View(db)[x]
              && x in db.numbers && x in Flush(db, d).numbers && Flush(db, d).numbers[x] == db.numbers[x]
  {
  }

  /** Marks one height, with every fork on it; a fully frozen height holds only the canonical hash. */
  function Doom(db: Data, d: Doomed, canonicalHash: Hash, n: nat): Doomed {
    var found := HashesAt(db, n);
    var hashes := if found == {} then {canonicalHash} else found;
    Doomed(d.headers + found, d.numbers + hashes, d.levels + {n},
           if n + 1 <= |db.ancientHashes| then d.bodies else d.bodies + hashes)
  }

  /** Exactly the heights above k and below gap are marked, forks included. */
  ghost predicate Covers(db: Data, d: Doomed, k: nat, gap: nat) {
    && (forall h :: h in d.headers <==> h in db.headers && k < db.headers[h].number < gap)
    && (forall n :: n in d.levels <==> k < n < gap)
    && (forall h | h in d.numbers || h in d.bodies :: h in View(db) && k < View(db)[h].number < gap)
    && (forall h | h in db.headers && k < db.headers[h].number < gap ::
          h in d.numbers && (db.headers[h].number >= |db.ancientHashes| ==> h in d.bodies))
  }

  /** Marking the next height down. */
  lemma DoomDown(db: Data, g: Header, line: seq<Hash>, d: Doomed, k: nat, n: nat, gap: nat)
    requires Consistent(db, g, line) && Covers(db, d, n, gap) && n == k + 1 && n < |line| && n < gap
    ensures Covers(db, Doom(db, d, line[n], n), k, gap)
  {
  }

  /** Marking the next height up. */
  lemma DoomUp(db: Data, g: Header, line: seq<Hash>, d: Doomed, k: nat, n: nat, gap: nat, canonicalHash: Hash)
    requires Consistent(db, g, line) && Covers(db, d, k, n) && gap == n + 1 && k < n && HashesAt(db, n) != {}
    ensures Covers(db, Doom(db, d, canonicalHash, n), k, gap)
  {
  }

  ghost function HashesFrom(db: Data, n: nat): set<Hash> {
    set h | h in db.headers && db.headers[h].number >= n
  }

  lemma FewerAbove(db: Data, n: nat)
    requires HashesAt(db, n) != {}
    ensures HashesFrom(db, n + 1) < HashesFrom(db, n)
  {
    var h :| h in HashesAt(db, n);
    assert h in HashesFrom(db, n) && h !in HashesFrom(db, n + 1);
  }

  /** Marks leftovers above num, up to the first height without a stored header. */
  method DoomLeftovers(db: Data, ghost g: Header, ghost line: seq<Hash>, canonicalHash: Hash, num: nat)
    returns (d: Doomed, gap: nat)
    requires Consistent(db, g, line)
    ensures num < gap && Covers(db, d, num, gap)
    ensures HashesAt(db, gap) == {} && forall n | num < n < gap :: HashesAt(db, n) != {}
  {
    d, gap := Doomed({}, {}, {}, {}), num + 1;
    while HashesAt(db, gap) != {}
      invariant num < gap && Covers(db, d, num, gap)
      invariant forall i | num < i < gap :: HashesAt(db, i) != {}
      decreases HashesFrom(db, gap)
    {
      var next := gap + 1;
      DoomUp(db, g, line, d, num, gap, next, canonicalHash);
      d := Doom(db, d, canonicalHash, gap);
      FewerAbove(db, gap);
      gap := next;
    }
  }

  lemma PlacedIsAnchored(db: Data, g: Header, line: seq<Hash>, h: Header)
    requires Consistent(db, g, line) && Placed(View(db), g.hash, h)
    ensures Anchored(db, g.hash, h.hash)
  {
    LineIsLinked(View(db), g.hash, h.hash);
  }

  lemma HeadsAreDurable(db: Db, g: Header, line: seq<Hash>, header: Header, block: Header, snap: Header)
    requires Consistent(db.data, g, line) && HeadsMatch(db, g.hash, header, block, snap)
    ensures Durable(db, g.hash)
  {
    PlacedIsAnchored(db.data, g, line, header);
    PlacedIsAnchored(db.data, g, line, block);
    PlacedIsAnchored(db.data, g, line, snap);
  }

  /** A head at or below m is still anchored once everything above m is gone. */
  lemma PlacedSurvives(db: Data, g: Header, line: seq<Hash>, d: Doomed, m: nat, h: Header)
    requires Consistent(db, g, line) && Above(db, d, m) && Placed(View(db), g.hash, h) && h.number <= m
    ensures Anchored(Flush(db, d), g.hash, h.hash) && Anchored(Truncate(Flush(db, d), m), g.hash, h.hash)
  {
    LowStays(db, g, line, d, m);
    var s := View(db);
    LineIsLinked(s, g.hash, h.hash);
    LowLinesStay(s, View(Flush(db, d)), g.hash, h.hash, m);
    LowLinesStay(s, View(Truncate(Flush(db, d), m)), g.hash, h.hash, m);
  }

  /** Reading the marker at any number gives the line, and nothing above its end. */
  lemma MarkersReadLine(db: Data, line: seq<Hash>, n: nat)
    requires MarkersMatch(db, line)
    ensures ReadCanonical(db, n) == if n < |line| then Some(line[n]) else None
  {
  }

  ghost predicate HeadsMatch(db: Db, g: Hash, header: Header, block: Header, snap: Header) {
    && db.headHeader == header.hash && db.headBlock == block.hash && db.headFast == snap.hash
    && Placed(View(db.data), g, header)
    && Placed(View(db.data), g, block) && block.number <= header.number
    && Placed(View(db.data), g, snap) && snap.number <= header.number
  }

  /** The heads that go with a head header: head block, snap block, available states, number of the requested root. */
  datatype Head = Head(block: Header, snap: Header, states: set<Hash>, rootNumber: nat)

  /** The head block can be executed on, or is the genesis. */
  ghost predicate Stateful(h: Head) {
    h.block.number == 0 || h.block.root in h.states
  }

  /** The heads after the head header was lowered to header: a head block not below it is searched for again. */
  ghost function LoweredTo(db: Data, g: Header, cfg: Config, header: Header, h: Head): Head {
    var found := if header.number <= h.block.number then Searched(View(db), g, header, cfg, h.states)
                 else (h.block, h.states, h.rootNumber);
    var snap := if header.number >= h.snap.number then h.snap
                else if header.hash in db.bodies || header.hash in db.ancient then header else g;
    Head(found.0, snap, found.1, found.2)
  }

  /** A rewind along a line, from the heads at its top, to a block number or a time. */
  datatype Route = Route(db: Data, g: Header, line: seq<Hash>, cfg: Config, start: Head, headBlock: nat, headTime: nat)

  /** The header at a place of the line. */
  ghost function HeaderAt(r: Route, n: nat): Header {
    if n < |r.line| && r.line[n] in View(r.db) then View(r.db)[r.line[n]] else r.g
  }

  /** The heads once the head header has come down to n. They do not depend on the target. */
  ghost function HeadAt(r: Route, n: nat): Head
    decreases |r.line| - n
  {
    if n + 1 >= |r.line| then r.start else LoweredTo(r.db, r.g, r.cfg, HeaderAt(r, n), HeadAt(r, n + 1))
  }

  /** The body of a block is stored, be it frozen or not. */
  predicate HasBody(db: Data, h: Header) {
    h.hash in db.bodies || h.hash in db.ancient
  }

  /**
   The snap block at n in closed form: the old one if that is low enough; else the header
   itself if all bodies from there up to the old one are stored, and the genesis otherwise.
   */
  ghost function SnapAt(r: Route, n: nat): Header {
    if r.start.snap.number <= n then r.start.snap
    else if forall k | n <= k < r.start.snap.number :: HasBody(r.db, HeaderAt(r, k)) then HeaderAt(r, n)
    else r.g
  }

  lemma {:induction false} SnapIs(r: Route, n: nat)
    requires Consistent(r.db, r.g, r.line) && n < |r.line| && r.start.snap.number < |r.line|
    ensures HeadAt(r, n).snap == SnapAt(r, n)
    decreases |r.line| - n
  {
    if n + 1 < |r.line| {
      SnapIs(r, n + 1);
      SnapStep(r, n, n + 1);
    }
  }

  lemma SnapStep(r: Route, n: nat, above: nat)
    requires Consistent(r.db, r.g, r.line) && above == n + 1 && above < |r.line|
    ensures SnapAt(r, n) ==
            LoweredTo(r.db, r.g, r.cfg, HeaderAt(r, n), HeadAt(r, above).(snap := SnapAt(r, above))).snap
  {
    assert HeaderAt(r, n).number == n && HeaderAt(r, above).number == above && r.g.number == 0;
  }

  /** A head block below n is not searched for again. */
  lemma {:induction false} BlockStays(r: Route, n: nat)
    requires Consistent(r.db, r.g, r.line) && r.start.block.number < n < |r.line|
    ensures HeadAt(r, n) == r.start.(snap := HeadAt(r, n).snap)
    decreases |r.line| - n
  {
    if n + 1 < |r.line| {
      BlockStays(r, n + 1);
      assert HeaderAt(r, n).number == n;
    }
  }

  /** Any other one is the highest acceptable block at or below n, given the states available then. */
  lemma BlockIsBest(r: Route, n: nat, above: nat)
    requires Consistent(r.db, r.g, r.line) && above == n + 1 && above < |r.line| && n <= HeadAt(r, above).block.number
    ensures Placed(View(r.db), r.g.hash, HeaderAt(r, n))
    ensures BestHead(View(r.db), r.g, HeaderAt(r, n), r.cfg, HeadAt(r, above).states, HeadAt(r, n).block)
    ensures RootFound(View(r.db), r.g, HeaderAt(r, n), r.cfg, HeadAt(r, above).states, HeadAt(r, n).block,
                      HeadAt(r, n).rootNumber)
  {
    var top, head := HeaderAt(r, n), HeadAt(r, above);
    HeaderIsPlaced(r, n, above);
    SearchedIsBest(View(r.db), r.g, top, r.cfg, head.states);
    assert HeadAt(r, n) == LoweredTo(r.db, r.g, r.cfg, top, head);
  }

  lemma HeaderIsPlaced(r: Route, n: nat, above: nat)
    requires Consistent(r.db, r.g, r.line) && above == n + 1 && above <= |r.line|
    ensures Placed(View(r.db), r.g.hash, HeaderAt(r, n)) && HeaderAt(r, n).number == n
  {
    LinkedIsLine(View(r.db), r.g.hash, r.line[..above]);
    assert r.line[..above][n] == r.line[n];
  }

  /** The head block lies below the frozen part, and no snap sync is going to fill the hole. */
  predicate Wiped(db: Data, cfg: Config, block: Header) {
    block.number + 1 < |db.ancientHashes| && (cfg.pivot.None? || block.number >= cfg.pivot.value)
  }

  /** The block is lower or older than what was asked for. */
  predicate Undershot(block: Header, headBlock: nat, headTime: nat) {
    if headTime > 0 then block.time < headTime else block.number < headBlock
  }

  /** What the rewind aims for: a block number, or a time if positive; forced if not the original target. */
  datatype Aim = Aim(block: nat, time: nat, forced: bool)

  /** The aim once the head header has come down to n: a wiped head block below the aim becomes the new aim. */
  ghost function AimAt(r: Route, n: nat): Aim
    decreases |r.line| - n
  {
    if n + 1 >= |r.line| then Aim(r.headBlock, r.headTime, false)
    else
      var aim, block := AimAt(r, n + 1), HeadAt(r, n).block;
      if Wiped(r.db, r.cfg, block) && Undershot(block, aim.block, aim.time) then Aim(block.number, 0, true) else aim
  }

  /** The header at n meets the aim the rewind has there. */
  ghost predicate Met(r: Route, n: nat) {
    Reached(HeaderAt(r, n), AimAt(r, n).block, AimAt(r, n).time)
  }

  /** Nothing above n met its aim, so the rewind gets to n. */
  ghost predicate GetsTo(r: Route, n: nat) {
    forall k | n < k < |r.line| :: !Met(r, k)
  }

  /** One more step down, with the next place given by name. */
  lemma RouteStep(r: Route, n: nat, above: nat)
    requires above == n + 1 && above < |r.line|
    ensures HeadAt(r, n) == LoweredTo(r.db, r.g, r.cfg, HeaderAt(r, n), HeadAt(r, above))
    ensures var aim, block := AimAt(r, above), HeadAt(r, n).block;
            AimAt(r, n) ==
            if Wiped(r.db, r.cfg, block) && Undershot(block, aim.block, aim.time) then Aim(block.number, 0, true)
            else aim
    ensures GetsTo(r, above) && !Met(r, above) ==> GetsTo(r, n)
  {
  }

  /** The head block found at k is wiped and misses the original target. */
  ghost predicate Undercut(r: Route, k: nat) {
    Wiped(r.db, r.cfg, HeadAt(r, k).block) && Undershot(HeadAt(r, k).block, r.headBlock, r.headTime)
  }

  /** The aim is forced exactly if some head block on the way was wiped and missed the original target. */
  lemma {:induction false} ForcedIff(r: Route, n: nat)
    ensures AimAt(r, n).forced <==> UndercutFrom(r, n)
    ensures !AimAt(r, n).forced ==> AimAt(r, n) == Aim(r.headBlock, r.headTime, false)
    decreases |r.line| - n
  {
    if n + 1 < |r.line| {
      ForcedIff(r, n + 1);
      if AimAt(r, n + 1).forced {
        var k :| n + 1 <= k < |r.line| - 1 && Undercut(r, k);
        assert n <= k;
      } else {
        assert AimAt(r, n).forced <==> Undercut(r, n);
      }
    }
  }

  /** A forced aim is a block below the frozen part, at which the head block stands unless it fell below the pivot. */
  ghost predicate Forced(r: Route, block: Header, aim: nat) {
    && aim + 1 < |r.db.ancientHashes| && (r.headTime == 0 ==> aim < r.headBlock)
    && (block.number == aim || (r.cfg.pivot.Some? && block.number < r.cfg.pivot.value))
  }

  /** The rewind has come down to n with these heads and this aim. */
  ghost predicate OnCourse(r: Route, n: nat, head: Head, aim: Aim) {
    && n < |r.line| && head == HeadAt(r, n) && aim == AimAt(r, n) && GetsTo(r, n)
    && head.block.number <= n && (Stateful(r.start) ==> Stateful(head))
    && Located(View(r.db), r.line, r.cfg.root, head.rootNumber)
    && if aim.forced then aim.time == 0 && aim.block <= n && Forced(r, head.block, aim.block)
       else aim == Aim(r.headBlock, r.headTime, false)
  }

  lemma StaysOnCourse(r: Route, n: nat, above: nat, head: Head, head': Head, aim: Aim, aim': Aim)
    requires above == n + 1 && OnCourse(r, above, head, aim)
    requires !Reached(HeaderAt(r, above), aim.block, aim.time) && HeaderAt(r, above).number == above
    requires head' == LoweredTo(r.db, r.g, r.cfg, HeaderAt(r, n), head)
    requires head'.block.number <= n && head'.block.number <= head.block.number && (Stateful(head) ==> Stateful(head'))
    requires Located(View(r.db), r.line, r.cfg.root, head.rootNumber) ==>
             Located(View(r.db), r.line, r.cfg.root, head'.rootNumber)
    requires aim' == if Wiped(r.db, r.cfg, head'.block) && Undershot(head'.block, aim.block, aim.time)
                     then Aim(head'.block.number, 0, true) else aim
    ensures OnCourse(r, n, head', aim')
  {
    RouteStep(r, n, above);
  }

  /**
   Where a rewind ends. The heads are those of that height, and a head block with state is
   not traded for one without. Unless a wiped head block forced it further down, the header
   is the highest that meets the target; forced, it is the block that was aimed for.
   */
  ghost predicate Arrived(r: Route, header: Header, head: Head, target: nat, forced: bool) {
    && Came(r, header, header.number, head, target) && (forced <==> UndercutFrom(r, header.number))
    && if forced then header.number == target && Forced(r, head.block, target)
       else StoppedAt(View(r.db), r.line, header, r.headBlock, r.headTime)
  }

  /** The rewind comes down to m and stops there, with the heads of that height. */
  ghost predicate Came(r: Route, header: Header, m: nat, head: Head, target: nat) {
    && m < |r.line| && header == HeaderAt(r, m) && head == HeadAt(r, m) && (Stateful(r.start) ==> Stateful(head))
    && Located(View(r.db), r.line, r.cfg.root, head.rootNumber)
    && Met(r, m) && GetsTo(r, m) && target == AimAt(r, m).block
  }

  /** Some head block on the way down to m was wiped and missed the original target. */
  ghost predicate UndercutFrom(r: Route, m: nat) {
    exists k :: m <= k < |r.line| - 1 && Undercut(r, k)
  }

  /** Where a rewind ends, with which heads, what it aimed for in the end, and whether it was forced to. */
  datatype End = End(number: nat, head: Head, target: nat, forced: bool)

  /** The end of a rewind that has come down to n: here, if the header meets the aim. */
  ghost function EndFrom(r: Route, n: nat): End {
    if n == 0 || Met(r, n) then End(n, HeadAt(r, n), AimAt(r, n).block, AimAt(r, n).forced) else EndFrom(r, n - 1)
  }

  /** One step of it, with the next place given by name. */
  lemma EndStep(r: Route, n: nat, above: nat, header: Header, aim: Aim)
    requires above == n + 1 && header == HeaderAt(r, above) && aim == AimAt(r, above)
    requires !Reached(header, aim.block, aim.time)
    ensures EndFrom(r, above) == EndFrom(r, n)
  {
  }

  lemma EndHere(r: Route, n: nat, header: Header, head: Head, aim: Aim)
    requires header == HeaderAt(r, n) && head == HeadAt(r, n) && aim == AimAt(r, n)
    requires Reached(header, aim.block, aim.time)
    ensures EndFrom(r, n) == End(n, head, aim.block, aim.forced)
  {
  }

  /** A rewind along a consistent chain, from a head block and snap block on it, to no time before the genesis. */
  ghost predicate Passable(r: Route) {
    && Consistent(r.db, r.g, r.line) && (r.headTime == 0 || r.g.time <= r.headTime)
    && r.start.block.number < |r.line| && r.start.snap.number < |r.line| && r.start.rootNumber == 0
    && Placed(View(r.db), r.g.hash, r.start.block)
  }

  /** Lowering the head header keeps the head block below it, does not raise it, and does not lose its state. */
  lemma LoweredKeeps(r: Route, n: nat, above: nat, head: Head)
    requires Passable(r) && above == n + 1 && above < |r.line| && head.block.number <= above
    requires Located(View(r.db), r.line, r.cfg.root, head.rootNumber)
    ensures var head' := LoweredTo(r.db, r.g, r.cfg, HeaderAt(r, n), head);
            && head'.block.number <= n && head'.block.number <= head.block.number
            && (Stateful(head) ==> Stateful(head'))
            && Located(View(r.db), r.line, r.cfg.root, head'.rootNumber)
  {
    var s, top := View(r.db), HeaderAt(r, n);
    HeaderIsPlaced(r, n, above);
    if n <= head.block.number {
      var found := Searched(s, r.g, top, r.cfg, head.states);
      SearchedIsBest(s, r.g, top, r.cfg, head.states);
      FoundIsLocated(s, r.g, r.line, top, r.cfg, head.states, found.0, found.2);
      LineIsLinked(s, r.g.hash, top.hash);
    }
  }

  lemma {:induction false} CourseHolds(r: Route, n: nat)
    requires Passable(r) && n < |r.line| && GetsTo(r, n)
    ensures OnCourse(r, n, HeadAt(r, n), AimAt(r, n))
    decreases |r.line| - n
  {
    var above := n + 1;
    if above < |r.line| {
      var head := HeadAt(r, above);
      CourseHolds(r, above);
      LoweredKeeps(r, n, above, head);
      HeaderIsPlaced(r, above, above + 1);
      assert !Met(r, above);
      RouteStep(r, n, above);
      StaysOnCourse(r, n, above, head, HeadAt(r, n), AimAt(r, above), AimAt(r, n));
    }
  }

  /** The genesis meets every aim. */
  lemma GenesisMeets(r: Route)
    requires Passable(r)
    ensures HeaderAt(r, 0) == r.g && Met(r, 0)
  {
    AimIsBlock(r, 0);
  }

  /** The rewind gets to its end and stops there. */
  lemma {:induction false} EndIsMet(r: Route, n: nat)
    requires n < |r.line| && GetsTo(r, n) && Met(r, 0)
    ensures var m := EndFrom(r, n).number;
            && m <= n && GetsTo(r, m) && Met(r, m)
            && EndFrom(r, n) == End(m, HeadAt(r, m), AimAt(r, m).block, AimAt(r, m).forced)
    decreases n
  {
    if n > 0 && !Met(r, n) {
      EndIsMet(r, n - 1);
    }
  }

  /** There it has arrived. */
  lemma ArrivesAt(r: Route, m: nat)
    requires Passable(r) && m < |r.line| && GetsTo(r, m) && Met(r, m)
    ensures Arrived(r, HeaderAt(r, m), HeadAt(r, m), AimAt(r, m).block, AimAt(r, m).forced)
  {
    CourseHolds(r, m);
    HeaderIsPlaced(r, m, m + 1);
    Arrives(r, HeaderAt(r, m), HeadAt(r, m), AimAt(r, m));
  }

  lemma Arrives(r: Route, header: Header, head: Head, aim: Aim)
    requires OnCourse(r, header.number, head, aim) && header == HeaderAt(r, header.number)
    requires Reached(header, aim.block, aim.time)
    ensures Arrived(r, header, head, aim.block, aim.forced)
  {
    var m := header.number;
    ForcedIff(r, m);
    if !aim.forced {
      forall k | m < k < |r.line| && r.line[k] in View(r.db)
        ensures !Reached(View(r.db)[r.line[k]], r.headBlock, r.headTime) {
        ForcedIff(r, k);
        assert !Met(r, k);
      }
    }
  }

  /** In block mode every aim is a block. */
  lemma {:induction false} AimIsBlock(r: Route, n: nat)
    ensures AimAt(r, n).forced || r.headTime == 0 ==> AimAt(r, n).time == 0
    ensures !AimAt(r, n).forced ==> AimAt(r, n) == Aim(r.headBlock, r.headTime, false)
    decreases |r.line| - n
  {
    if n + 1 < |r.line| {
      AimIsBlock(r, n + 1);
    }
  }

  /**
   Where a rewind stops, the ancient store does not reach beyond the head block, once it is
   cut, unless snap sync is to fill the hole. The one exception is a rewind to a time that
   the head block is not older than; a head block that is older than every header above it,
   as on a chain whose timestamps grow, leaves no hole.
   */
  lemma NoHoleLeft(r: Route, m: nat, after: Data)
    requires m + 1 < |r.line| && Met(r, m) && HeaderAt(r, m).number == m
    requires |after.ancientHashes| <= |r.db.ancientHashes| && |after.ancientHashes| <= m + 1
    ensures Wiped(after, r.cfg, HeadAt(r, m).block) ==> r.headTime > 0 && HeadAt(r, m).block.time >= r.headTime
    ensures (HeadAt(r, m).block.number < m ==> HeadAt(r, m).block.time < HeaderAt(r, m).time) ==>
              !Wiped(after, r.cfg, HeadAt(r, m).block)
  {
    AimIsBlock(r, m);
    AimIsBlock(r, m + 1);
    RouteStep(r, m, m + 1);
  }

  /** The snap block at the end of a rewind, and that no hole is left below the ancient store. */
  lemma HeadsAtEnd(r: Route, header: Header, head: Head, target: nat, forced: bool, after: Data)
    requires Passable(r) && Arrived(r, header, head, target, forced)
    requires |after.ancientHashes| <= |r.db.ancientHashes| && |after.ancientHashes| <= header.number + 1
    ensures head.snap == SnapAt(r, header.number)
    ensures header.number + 1 < |r.line| && Wiped(after, r.cfg, head.block) ==>
              r.headTime > 0 && head.block.time >= r.headTime
  {
    var m := header.number;
    SnapIs(r, m);
    if m + 1 < |r.line| {
      NoHoleLeft(r, m, after);
    }
  }

  /** What the end of a rewind means, for all three heads. */
  lemma EndMeans(r: Route, e: End, after: Data)
    requires Passable(r) && e == EndFrom(r, |r.line| - 1)
    requires |after.ancientHashes| <= |r.db.ancientHashes| && |after.ancientHashes| <= e.number + 1
    ensures Arrived(r, HeaderAt(r, e.number), e.head, e.target, e.forced)
    ensures e.number < |r.line| && e.head.snap == SnapAt(r, e.number)
    ensures e.number + 1 < |r.line| && Wiped(after, r.cfg, e.head.block) ==>
              r.headTime > 0 && e.head.block.time >= r.headTime
  {
    var m := e.number;
    GenesisMeets(r);
    EndIsMet(r, |r.line| - 1);
    ArrivesAt(r, m);
    HeaderIsPlaced(r, m, m + 1);
    HeadsAtEnd(r, HeaderAt(r, m), e.head, e.target, e.forced, after);
  }

  /** The database once the marker batch for height n is written. */
  ghost function BatchAt(r: Route, n: nat): Db {
    Db(r.db, HeaderAt(r, n).hash, HeadAt(r, n).block.hash, HeadAt(r, n).snap.hash)
  }

  /** The marker batches of the way down to n, one for each height, in the order they are written. */
  ghost function Batches(r: Route, n: nat): seq<Db>
    decreases |r.line| - n
  {
    if n + 1 >= |r.line| then [] else Batches(r, n + 1) + [BatchAt(r, n)]
  }

  /** They come from the top down, one for each height below the old head. */
  lemma {:induction false} BatchesAre(r: Route, n: nat, i: nat)
    requires n < |r.line| && i < |r.line| - 1 - n
    ensures |Batches(r, n)| == |r.line| - 1 - n && Batches(r, n)[i] == BatchAt(r, |r.line| - 2 - i)
    decreases |r.line| - n
  {
    if n + 2 < |r.line| {
      BatchesAre(r, n + 1, if i + 2 + n < |r.line| - 1 then i else 0);
    }
  }

  /** The deletions once the head header stands at m: one batch, then the ancient store if it reaches higher. */
  function Cuts(db: Db, d: Doomed, m: nat): seq<Db> {
    var flushed := db.(data := Flush(db.data, d));
    [flushed] + if m + 1 < |flushed.data.ancientHashes| then [flushed.(data := Truncate(flushed.data, m))] else []
  }

  /** First the key-value store changes and the ancient store does not; then it is the other way round. */
  lemma CutsAre(db: Db, d: Doomed, m: nat)
    ensures var cuts := Cuts(db, d, m);
            && |cuts| == (if m + 1 < |db.data.ancientHashes| then 2 else 1)
            && cuts[0].data.ancientHashes == db.data.ancientHashes && cuts[0].data.ancient == db.data.ancient
            && cuts[0].data.headers.Keys == db.data.headers.Keys - d.headers
            && cuts[0].data.canonical.Keys == db.data.canonical.Keys - d.levels
            && (|cuts| == 2 ==>
                  && cuts[1].data.ancientHashes == db.data.ancientHashes[..m + 1]
                  && cuts[1].data.headers == cuts[0].data.headers && cuts[1].data.numbers == cuts[0].data.numbers
                  && cuts[1].data.canonical == cuts[0].data.canonical && cuts[1].data.bodies == cuts[0].data.bodies)
            && cuts[|cuts| - 1] == CutTo(db, d, m)
  {
  }

  function CutTo(db: Db, d: Doomed, m: nat): Db {
    db.(data := Truncate(Flush(db.data, d), m))
  }

  /** What the deletions leave: a consistent chain cut at the head header, the heads on it, no forks above. */
  ghost predicate Left(before: Data, after: Db, g: Header, oldHead: nat, cut: seq<Hash>, header: Header, block: Header,
                       snap: Header)
  {
    && Consistent(after.data, g, cut) && HeadsMatch(after, g.hash, header, block, snap)
    && header.number + 1 == |cut| && header.hash == cut[header.number]
    && ForksGone(before, after.data, oldHead, header.number)
  }

  /** Since start exactly the marker batches down to n became durable, each with all heads readable. */
  ghost predicate Logged(r: Route, n: nat, start: seq<Db>, history: seq<Db>, db: Db) {
    && history == start + Batches(r, n) && AllDurable(start, history, r.g.hash)
    && db == BatchAt(r, n)
  }

  lemma LoggedGrows(r: Route, n: nat, above: nat, start: seq<Db>, history: seq<Db>, db: Db, db': Db,
                    header: Header, block: Header, snap: Header)
    requires above == n + 1 && above < |r.line| && Logged(r, above, start, history, db)
    requires db'.data == r.db && HeadsMatch(db', r.g.hash, header, block, snap) && Durable(db', r.g.hash)
    requires header == HeaderAt(r, n) && block == HeadAt(r, n).block && snap == HeadAt(r, n).snap
    ensures Logged(r, n, start, history + [db'], db')
  {
    DurableGrows(start, history, db', r.g.hash);
    assert Batches(r, n) == Batches(r, above) + [db'];
    assert start + Batches(r, n) == history + [db'];
  }

  /**
   All that a rewind to m makes durable, in order: a marker batch for each height on the way
   down, then the deletions, then the cut of the ancient store. In each of these states all
   heads are readable, and the last is the database at the end.
   */
  ghost predicate Trail(r: Route, m: nat, d: Doomed, start: seq<Db>, history: seq<Db>, db: Db) {
    && history == start + Batches(r, m) + Cuts(BatchAt(r, m), d, m) && AllDurable(start, history, r.g.hash)
    && db == CutTo(BatchAt(r, m), d, m)
  }

  lemma TrailEnds(r: Route, m: nat, d: Doomed, start: seq<Db>, written: seq<Db>, was: Db, history: seq<Db>, db: Db)
    requires Logged(r, m, start, written, was) && AllDurable([], Cuts(was, d, m), r.g.hash)
    requires history == written + Cuts(was, d, m) && db == CutTo(was, d, m)
    ensures Trail(r, m, d, start, history, db)
  {
    DurableChains(start, written, Cuts(was, d, m), r.g.hash);
  }

  class Node {
    const genesis: Header

    var db: Db
    // Every state of the database that was made durable, oldest first.
    var history: seq<Db>

    var currentHeader: Header
    var currentBlock: Header
    var currentSnapBlock: Header
    // The state roots that can be opened.
    var states: set<Hash>

    /** A database that consists of its genesis. */
    constructor (g: Header, states: set<Hash>)
      requires g.number == 0 && g.hash != ZERO_HASH
      ensures Valid([g.hash]) && genesis == g && currentHeader == currentBlock == currentSnapBlock == g
      ensures history == [] && this.states == states
    {
      genesis, history, this.states := g, [], states;
      db := Db(Data(map[g.hash := g], map[g.hash := 0], {g.hash}, map[0 := g.hash], map[], []), g.hash, g.hash, g.hash);
      currentHeader, currentBlock, currentSnapBlock := g, g, g;
    }

    /** The in-memory heads match the stored ones, are fully readable and do not exceed the head header. */
    ghost predicate HeadsOk()
      reads `db, `currentHeader, `currentBlock, `currentSnapBlock
    {
      HeadsMatch(db, genesis.hash, currentHeader, currentBlock, currentSnapBlock)
    }

    ghost predicate Valid(line: seq<Hash>)
      reads `db, `currentHeader, `currentBlock, `currentSnapBlock
    {
      && Consistent(db.data, genesis, line) && HeadsOk()
      && currentHeader.number + 1 == |line| && currentHeader.hash == line[currentHeader.number]
    }

    /** The heads as they are, with the number reported for the requested root so far. */
    ghost function HeadNow(rootNumber: nat): Head
      reads `currentBlock, `currentSnapBlock, `states
    {
      Head(currentBlock, currentSnapBlock, states, rootNumber)
    }

    /** The rewind has come down and is ready to delete what it marked: everything above, up to an empty height. */
    ghost predicate Poised(r: Route, d: Doomed, gap: nat)
      reads `db, `currentHeader, `currentBlock, `currentSnapBlock
    {
      && r.g == genesis && db.data == r.db && HeadsOk() && Covers(r.db, d, currentHeader.number, gap)
      && currentHeader.number < |r.line| <= gap && currentHeader.hash == r.line[currentHeader.number]
      && (currentHeader.number < |r.line| - 1 ==> HashesAt(r.db, gap) == {})
    }

    /** The rewind that starts from here. */
    ghost function RouteFrom(line: seq<Hash>, cfg: Config, headBlock: nat, headTime: nat): Route
      reads `db, `currentBlock, `currentSnapBlock, `states
    {
      Route(db.data, genesis, line, cfg, HeadNow(0), headBlock, headTime)
    }

    /** A head block not below the header is replaced by the highest acceptable one. */
    method LowerBlock(header: Header, cfg: Config, rootNumber: nat, ghost line: seq<Hash>) returns (rootNumber': nat)
      requires Consistent(db.data, genesis, line) && Placed(View(db.data), genesis.hash, header)
      requires Placed(View(db.data), genesis.hash, currentBlock)
      requires header.number < |line| && header.hash == line[header.number]
      modifies `currentBlock, `states
      ensures Placed(View(db.data), genesis.hash, currentBlock)
      ensures currentBlock.number <= header.number && currentBlock.number <= old(currentBlock.number)
      ensures if header.number > old(currentBlock.number) then unchanged(this) && rootNumber' == rootNumber
              else
                && (currentBlock, states, rootNumber') == Searched(View(db.data), genesis, header, cfg, old(states))
                && BestHead(View(db.data), genesis, header, cfg, old(states), currentBlock)
                && RootFound(View(db.data), genesis, header, cfg, old(states), currentBlock, rootNumber')
                && Located(View(db.data), line, cfg.root, rootNumber')
                && (currentBlock.number == 0 || currentBlock.root in states)
    {
      rootNumber' := rootNumber;
      if header.number <= currentBlock.number {
        var newHeadBlock, available;
        newHeadBlock, rootNumber', available := RewindHead(View(db.data), genesis, header, cfg, states);
        FoundIsLocated(View(db.data), genesis, line, header, cfg, states, newHeadBlock, rootNumber');
        currentBlock, states := newHeadBlock, available;
        if newHeadBlock.root !in states {
          if newHeadBlock.number != 0 {
            // The chain would be stateless at a non-genesis block.
            assert false;
          }
        }
      }
    }

    /**
     The head block and snap block that go with a head header lowered to header, and
     whether the rewind has to go on down to the head block.
     */
    method UpdateHeads(header: Header, cfg: Config, rootNumber: nat, ghost line: seq<Hash>)
      returns (force: bool, rootNumber': nat)
      requires Consistent(db.data, genesis, line) && Placed(View(db.data), genesis.hash, header)
      requires Placed(View(db.data), genesis.hash, currentBlock)
               && Placed(View(db.data), genesis.hash, currentSnapBlock)
      requires header.number < |line| && header.hash == line[header.number]
      modifies `currentBlock, `currentSnapBlock, `states
      ensures Placed(View(db.data), genesis.hash, currentBlock) && currentBlock.number <= header.number
      ensures Placed(View(db.data), genesis.hash, currentSnapBlock) && currentSnapBlock.number <= header.number
      ensures HeadNow(rootNumber') == LoweredTo(db.data, genesis, cfg, header, old(HeadNow(rootNumber)))
      ensures currentBlock.number <= old(currentBlock.number)
      ensures Located(View(db.data), line, cfg.root, rootNumber) ==> Located(View(db.data), line, cfg.root, rootNumber')
      ensures Stateful(old(HeadNow(rootNumber))) ==> Stateful(HeadNow(rootNumber'))
      ensures force <==> Wiped(db.data, cfg, currentBlock)
      ensures header.number < old(currentSnapBlock.number) ==>
                currentSnapBlock == if HasBody(db.data, header) then header else genesis
    {
      rootNumber' := LowerBlock(header, cfg, rootNumber, line);
      if header.number < currentSnapBlock.number {
        currentSnapBlock := if header.hash in db.data.bodies || header.hash in db.data.ancient then header else genesis;
      }
      var headNumber := currentBlock.number;
      force := headNumber + 1 < |db.data.ancientHashes| && (cfg.pivot.None? || headNumber >= cfg.pivot.value);
    }

    /** Moves the head header one block down; all head markers go to disk in one batch. */
    method LowerHead(cfg: Config, rootNumber: nat, ghost line: seq<Hash>) returns (force: bool, rootNumber': nat)
      requires Consistent(db.data, genesis, line) && HeadsOk()
      requires 0 < currentHeader.number < |line| && currentHeader.hash == line[currentHeader.number]
      modifies `db, `history, `currentHeader, `currentBlock, `currentSnapBlock, `states
      ensures db.data == old(db.data) && HeadsOk()
      ensures currentHeader.number == old(currentHeader.number) - 1 && currentHeader.hash == line[currentHeader.number]
      ensures history == old(history) + [db] && Durable(db, genesis.hash)
      ensures HeadNow(rootNumber') == LoweredTo(db.data, genesis, cfg, currentHeader, old(HeadNow(rootNumber)))
      ensures Located(View(db.data), line, cfg.root, rootNumber) ==> Located(View(db.data), line, cfg.root, rootNumber')
      ensures currentBlock.number <= old(currentBlock.number)
      ensures force <==> Wiped(db.data, cfg, currentBlock)
      ensures Stateful(old(HeadNow(rootNumber))) ==> Stateful(HeadNow(rootNumber'))
    {
      var parent := GetHeader(View(db.data), currentHeader.parent, currentHeader.number - 1);
      var next := if parent.None? then genesis else parent.value;
      assert next.hash == line[currentHeader.number - 1];
      force, rootNumber' := UpdateHeads(next, cfg, rootNumber, line);
      db := db.(headHeader := next.hash, headBlock := currentBlock.hash, headFast := currentSnapBlock.hash);
      history := history + [db];
      currentHeader := next;
      HeadsAreDurable(db, genesis, line, currentHeader, currentBlock, currentSnapBlock);
    }

    /** Flushes the deletions, then cuts the ancient store; each is durable on its own. */
    method Cut(d: Doomed)
      modifies `db, `history
      ensures history == old(history) + Cuts(old(db), d, currentHeader.number)
      ensures db == CutTo(old(db), d, currentHeader.number)
    {
      db := db.(data := Flush(db.data, d));
      history := history + [db];
      if currentHeader.number + 1 < |db.data.ancientHashes| {
        db := db.(data := Truncate(db.data, currentHeader.number));
        history := history + [db];
      }
    }

    /** The deletions of a rewind, together with what they leave of the database. */
    method Delete(d: Doomed, ghost cut: seq<Hash>, ghost gap: nat, ghost r: Route, ghost start: seq<Db>)
      returns (ghost log: seq<Db>, ghost after: Db)
      requires Consistent(r.db, r.g, r.line) && Poised(r, d, gap) && cut == r.line[..currentHeader.number + 1]
      requires Logged(r, currentHeader.number, start, history, db)
      modifies `db, `history
      ensures log == history && after == db && Valid(cut)
      ensures Trail(r, currentHeader.number, d, start, log, after)
      ensures ForksGone(r.db, after.data, |r.line| - 1, currentHeader.number)
    {
      ghost var written, was, m := history, db, currentHeader.number;
      ghost var header, block, snap := currentHeader, currentBlock, currentSnapBlock;
      log, after := written + Cuts(was, d, m), CutTo(was, d, m);
      CutEndsTrail(r, start, written, was, d, gap, cut, header, block, snap);
      Cut(d);
    }

    /** Marks the height the head header has just left, and in the first round the leftovers above it. */
    method MarkLeft(d: Doomed, first: bool, hash: Hash, num: nat, ghost k: nat, ghost line: seq<Hash>, ghost gap: nat)
      returns (d': Doomed, ghost gap': nat)
      requires Consistent(db.data, genesis, line) && num == k + 1 && num < |line| <= gap && hash == line[num]
      requires first ==> num == |line| - 1
      requires !first ==> Covers(db.data, d, num, gap)
      ensures Covers(db.data, d', k, gap') && |line| <= gap'
      ensures if first then HashesAt(db.data, gap') == {} else gap' == gap
    {
      d', gap' := d, gap;
      if first {
        d', gap' := DoomLeftovers(db.data, genesis, line, hash, num);
      }
      DoomDown(db.data, genesis, line, d', k, num, gap');
      d' := Doom(db.data, d', hash, num);
    }

    /** One round of the rewind: lowers the head header and moves the aim if the head block is wiped. */
    method Approach(target: nat, time: nat, forced: bool, rootNumber: nat, cfg: Config, ghost r: Route,
                    ghost start: seq<Db>)
      returns (target': nat, time': nat, forced': bool, rootNumber': nat, ghost head': Head)
      requires Consistent(db.data, genesis, r.line) && HeadsOk() && db.data == r.db && genesis == r.g && cfg == r.cfg
      requires 0 < currentHeader.number < |r.line| && currentHeader.hash == r.line[currentHeader.number]
      requires HeadNow(rootNumber) == HeadAt(r, currentHeader.number)
      requires Aim(target, time, forced) == AimAt(r, currentHeader.number) && !Reached(currentHeader, target, time)
      requires Logged(r, currentHeader.number, start, history, db)
      modifies `db, `history, `currentHeader, `currentBlock, `currentSnapBlock, `states
      ensures db.data == r.db && HeadsOk() && Logged(r, currentHeader.number, start, history, db)
      ensures currentHeader.number == old(currentHeader.number) - 1
              && currentHeader.hash == r.line[currentHeader.number]
      ensures head' == HeadNow(rootNumber') == HeadAt(r, currentHeader.number)
      ensures Aim(target', time', forced') == AimAt(r, currentHeader.number)
      ensures EndFrom(r, currentHeader.number) == EndFrom(r, old(currentHeader.number))
    {
      ghost var written, was, above := history, db, currentHeader.number;
      EndStep(r, above - 1, above, currentHeader, Aim(target, time, forced));
      var force;
      force, rootNumber' := LowerHead(cfg, rootNumber, r.line);
      target', time', forced' := target, time, forced;
      if force && (if time > 0 then currentBlock.time < time else currentBlock.number < target) {
        target', time', forced' := currentBlock.number, 0, true;
      }
      head' := HeadNow(rootNumber');
      RouteStep(r, currentHeader.number, above);
      LoggedGrows(r, currentHeader.number, above, start, written, was, db, currentHeader, currentBlock,
                  currentSnapBlock);
    }

    /** The loop of the rewind: lowers the markers and collects what is to be deleted. */
    method Descend(headBlock: nat, headTime: nat, cfg: Config, ghost r: Route)
      returns (d: Doomed, target: nat, forced: bool, rootNumber: nat, ghost gap: nat, ghost header: Header,
               ghost head: Head)
      requires Valid(r.line) && r == RouteFrom(r.line, cfg, headBlock, headTime) && Passable(r)
      modifies `db, `history, `currentHeader, `currentBlock, `currentSnapBlock, `states
      ensures Poised(r, d, gap) && Logged(r, currentHeader.number, old(history), history, db)
      ensures header == currentHeader == HeaderAt(r, header.number) && head == HeadNow(rootNumber)
      ensures End(header.number, head, target, forced) == EndFrom(r, |r.line| - 1)
    {
      var targetTime, first := headTime, true;
      d, target, forced, rootNumber, gap := Doomed({}, {}, {}, {}), headBlock, false, 0, |r.line|;
      GenesisMeets(r);
      while !Reached(currentHeader, target, targetTime)
        invariant db.data == r.db && HeadsOk()
        invariant currentHeader.number < |r.line| <= gap && currentHeader.hash == r.line[currentHeader.number]
        invariant Covers(r.db, d, currentHeader.number, gap)
        invariant if first then currentHeader.number == |r.line| - 1 else HashesAt(r.db, gap) == {}
        invariant Logged(r, currentHeader.number, old(history), history, db)
        invariant HeadNow(rootNumber) == HeadAt(r, currentHeader.number)
        invariant Aim(target, targetTime, forced) == AimAt(r, currentHeader.number)
        invariant EndFrom(r, currentHeader.number) == EndFrom(r, |r.line| - 1)
        decreases currentHeader.number
      {
        var hash, num := currentHeader.hash, currentHeader.number;
        target, targetTime, forced, rootNumber, head :=
          Approach(target, targetTime, forced, rootNumber, cfg, r, old(history));
        d, gap := MarkLeft(d, first, hash, num, currentHeader.number, r.line, gap);
        first := false;
      }
      header, head := currentHeader, HeadNow(rootNumber);
      EndHere(r, header.number, header, head, Aim(target, targetTime, forced));
    }

    /** The rewind proper: lower the markers, then delete. */
    method RewindTo(headBlock: nat, headTime: nat, cfg: Config, ghost r: Route)
      returns (target: nat, forced: bool, rootNumber: nat, ghost gone: Doomed, ghost rest: seq<Hash>,
               ghost header: Header, ghost head: Head, ghost log: seq<Db>, ghost after: Db)
      requires Valid(r.line) && r == RouteFrom(r.line, cfg, headBlock, headTime) && Passable(r)
      modifies this
      ensures header.number < |r.line| && rest == r.line[..header.number + 1] && Valid(rest)
      ensures log == history && after == db && head == HeadNow(rootNumber)
      ensures header == currentHeader == HeaderAt(r, header.number)
      ensures Trail(r, header.number, gone, old(history), log, after)
      ensures ForksGone(r.db, after.data, |r.line| - 1, header.number)
      ensures Arrived(r, header, head, target, forced) && head.snap == SnapAt(r, header.number)
      ensures header.number + 1 < |r.line| && Wiped(after.data, r.cfg, head.block) ==>
                r.headTime > 0 && head.block.time >= r.headTime
    {
      var d;
      ghost var gap;
      d, target, forced, rootNumber, gap, header, head := Descend(headBlock, headTime, cfg, r);
      gone, rest := d, r.line[..header.number + 1];
      log, after := Delete(d, rest, gap, r, old(history));
      EndMeans(r, End(header.number, head, target, forced), after.data);
    }

    /**
     Rewinds to a block number or, if headTime is positive, to a timestamp. The markers go
     down block by block, then everything above is deleted in one batch, then the ancient
     store is cut. A target time before the genesis is rejected.
     */
    method SetHead(headBlock: nat, headTime: nat, cfg: Config, ghost line: seq<Hash>, ghost r: Route)
      returns (ok: bool, target: nat, forced: bool, rootNumber: nat, ghost gone: Doomed, ghost rest: seq<Hash>)
      requires Valid(line) && r == RouteFrom(line, cfg, headBlock, headTime)
      modifies this
      ensures ok <==> headTime == 0 || genesis.time <= headTime
      ensures !ok ==> unchanged(this)
      ensures ok ==> currentHeader.number < |line| && rest == line[..currentHeader.number + 1] && Valid(rest)
      ensures ok ==> Trail(r, currentHeader.number, gone, old(history), history, db)
      ensures ok ==> ForksGone(r.db, db.data, |line| - 1, currentHeader.number)
      ensures ok ==> Arrived(r, currentHeader, HeadNow(rootNumber), target, forced)
      ensures ok ==> currentSnapBlock == SnapAt(r, currentHeader.number)
      ensures ok && currentHeader.number + 1 < |line| && Wiped(db.data, cfg, currentBlock) ==>
                headTime > 0 && currentBlock.time >= headTime
    {
      if headTime > 0 && genesis.time > headTime {
        return false, headBlock, false, 0, Doomed({}, {}, {}, {}), line;
      }
      ghost var header, head, log, after;
      target, forced, rootNumber, gone, rest, header, head, log, after := RewindTo(headBlock, headTime, cfg, r);
      ok := true;
    }
  }

  /** Each durable state of the deletions keeps all heads anchored, and the last is what is left. */
  lemma CutIsSound(db: Db, g: Header, line: seq<Hash>, cut: seq<Hash>, d: Doomed, gap: nat, header: Header,
                   block: Header, snap: Header)
    requires Consistent(db.data, g, line) && HeadsMatch(db, g.hash, header, block, snap)
             && Covers(db.data, d, header.number, gap)
    requires header.number < |line| <= gap && header.hash == line[header.number] && cut == line[..header.number + 1]
    requires header.number < |line| - 1 ==> HashesAt(db.data, gap) == {}
    ensures Left(db.data, CutTo(db, d, header.number), g, |line| - 1, cut, header, block, snap)
    ensures AllDurable([], Cuts(db, d, header.number), g.hash)
  {
    var flushed, after := db.(data := Flush(db.data, d)), CutTo(db, d, header.number);
    HeadsSurvive(db, g, line, d, gap, flushed, after, header, block, snap);
    ConsistentAfter(db.data, g, line, d, header.number, gap, after.data, cut);
    ForksAreGone(db.data, d, |line| - 1, header.number, gap, after.data);
    CutsAreDurable(db, d, header.number, flushed, after, g.hash);
  }

  /** After the marker batches, the deletions end the sequence of durable states and leave the chain cut. */
  lemma CutEndsTrail(r: Route, start: seq<Db>, written: seq<Db>, was: Db, d: Doomed, gap: nat, cut: seq<Hash>,
                     header: Header, block: Header, snap: Header)
    requires Consistent(r.db, r.g, r.line) && was.data == r.db && HeadsMatch(was, r.g.hash, header, block, snap)
    requires Covers(r.db, d, header.number, gap) && Logged(r, header.number, start, written, was)
    requires header.number < |r.line| <= gap && header.hash == r.line[header.number]
    requires cut == r.line[..header.number + 1] && (header.number < |r.line| - 1 ==> HashesAt(r.db, gap) == {})
    ensures Trail(r, header.number, d, start, written + Cuts(was, d, header.number), CutTo(was, d, header.number))
    ensures Left(r.db, CutTo(was, d, header.number), r.g, |r.line| - 1, cut, header, block, snap)
  {
    CutIsSound(was, r.g, r.line, cut, d, gap, header, block, snap);
    TrailEnds(r, header.number, d, start, written, was,
              written + Cuts(was, d, header.number), CutTo(was, d, header.number));
  }

  lemma CutsAreDurable(db: Db, d: Doomed, m: nat, flushed: Db, after: Db, g: Hash)
    requires flushed == db.(data := Flush(db.data, d)) && after == CutTo(db, d, m)
    requires Durable(flushed, g) && Durable(after, g)
    ensures AllDurable([], Cuts(db, d, m), g)
  {
    var cuts := Cuts(db, d, m);
    assert cuts[0] == flushed && (|cuts| > 1 ==> cuts[1] == after);
  }

  lemma HeadsSurvive(db: Db, g: Header, line: seq<Hash>, d: Doomed, gap: nat, flushed: Db, after: Db,
                     header: Header, block: Header, snap: Header)
    requires Consistent(db.data, g, line) && HeadsMatch(db, g.hash, header, block, snap)
             && Covers(db.data, d, header.number, gap)
    requires header.number < |line| <= gap
    requires flushed == db.(data := Flush(db.data, d))
             && after == flushed.(data := Truncate(flushed.data, header.number))
    ensures Durable(flushed, g.hash) && Durable(after, g.hash) && HeadsMatch(after, g.hash, header, block, snap)
  {
    HeadSurvives(db.data, g, line, d, header.number, gap, header, flushed.data, after.data);
    HeadSurvives(db.data, g, line, d, header.number, gap, block, flushed.data, after.data);
    HeadSurvives(db.data, g, line, d, header.number, gap, snap, flushed.data, after.data);
  }

  /** A head at or below m stays anchored and placed through both deletions. */
  lemma HeadSurvives(db: Data, g: Header, line: seq<Hash>, d: Doomed, m: nat, gap: nat, h: Header, flushed: Data,
                     after: Data)
    requires Consistent(db, g, line) && Covers(db, d, m, gap) && m < |line| <= gap
    requires Placed(View(db), g.hash, h) && h.number <= m
    requires flushed == Flush(db, d) && after == Truncate(flushed, m)
    ensures Anchored(flushed, g.hash, h.hash) && Anchored(after, g.hash, h.hash)
    ensures Placed(View(after), g.hash, h)
  {
    PlacedSurvives(db, g, line, d, m, h);
    LowStays(db, g, line, d, m);
  }

  /** What is left was there before, and lies outside the deleted heights. */
  lemma LeftOver(db: Data, d: Doomed, m: nat, gap: nat, after: Data)
    requires StoresAgree(db) && Covers(db, d, m, gap) && after == Truncate(Flush(db, d), m)
    requires forall h | h in db.ancient :: db.ancient[h].number < |db.ancientHashes|
    ensures forall h | h in View(after) ::
              h in View(db) && View(after)[h] == View(db)[h] && !(m < View(db)[h].number < gap)
  {
    forall h | h in View(after)
      ensures h in View(db) && View(after)[h] == View(db)[h] && !(m < View(db)[h].number < gap)
    {
      if h in after.ancient {
        assert h in db.ancient && after.ancient[h] == db.ancient[h] && db.ancient[h].number <= m;
      } else {
        assert h in db.headers && h !in d.headers;
      }
    }
  }

  lemma StoresAgreeAfter(db: Data, d: Doomed, m: nat, gap: nat, after: Data)
    requires StoresAgree(db) && Covers(db, d, m, gap) && after == Truncate(Flush(db, d), m)
    requires forall h | h in db.ancient :: db.ancient[h].number < |db.ancientHashes|
    ensures StoresAgree(after)
  {
    LeftOver(db, d, m, gap, after);
  }

  lemma MarkersMatchAfter(db: Data, line: seq<Hash>, d: Doomed, m: nat, gap: nat, after: Data, cut: seq<Hash>)
    requires MarkersMatch(db, line) && Covers(db, d, m, gap) && m < |line| <= gap
    requires after == Truncate(Flush(db, d), m) && cut == line[..m + 1]
    ensures MarkersMatch(after, cut)
  {
  }

  lemma LinkedAfter(s: Store, s': Store, g: Header, line: seq<Hash>, m: nat, cut: seq<Hash>)
    requires Genesis(s, g) && Linked(s, g.hash, line) && m < |line| && cut == line[..m + 1]
    requires forall x | x in s && s[x].number <= m :: x in s' && s'[x] == s[x]
    requires forall x | x in s' :: x in s && s'[x] == s[x]
    ensures Genesis(s', g) && Linked(s', g.hash, cut)
  {
  }

  /** What is left is consistent with the line cut at m. */
  lemma ConsistentAfter(db: Data, g: Header, line: seq<Hash>, d: Doomed, m: nat, gap: nat, after: Data, cut: seq<Hash>)
    requires Consistent(db, g, line) && Covers(db, d, m, gap) && m < |line| <= gap
    requires after == Truncate(Flush(db, d), m) && cut == line[..m + 1]
    ensures Consistent(after, g, cut)
  {
    assert forall x | x in View(db) && View(db)[x].number <= m :: x in View(after) && View(after)[x] == View(db)[x] by {
      LowStays(db, g, line, d, m);
    }
    LeftOver(db, d, m, gap, after);
    StoresAgreeAfter(db, d, m, gap, after);
    MarkersMatchAfter(db, line, d, m, gap, after, cut);
    LinkedAfter(View(db), View(after), g, line, m, cut);
  }

  /** No header of the line above n was low or old enough to stop at. */
  ghost predicate PastAll(s: Store, line: seq<Hash>, n: nat, headBlock: nat, headTime: nat) {
    forall i | n < i < |line| && line[i] in s :: !Reached(s[line[i]], headBlock, headTime)
  }

  /** The head is the highest header of the line that satisfies the target. */
  ghost predicate StoppedAt(s: Store, line: seq<Hash>, head: Header, headBlock: nat, headTime: nat) {
    Reached(head, headBlock, headTime) && PastAll(s, line, head.number, headBlock, headTime)
  }

  /** No header is stored at the height. */
  ghost predicate Bare(db: Data, n: nat) {
    forall h | h in db.headers :: db.headers[h].number != n
  }

  /** The header is stored, above m. */
  ghost predicate Higher(db: Data, h: Hash, m: nat) {
    h in View(db) && View(db)[h].number > m
  }

  /**
   Below the new head m nothing is lost; above it every header is deleted, forks included,
   up to the first height above the old head that had none. With a header go its number
   entry and, unless the height was frozen, its body.
   */
  ghost predicate ForksGone(before: Data, after: Data, oldHead: nat, m: nat) {
    && (forall h | h in after.headers :: h in before.headers && after.headers[h] == before.headers[h])
    && (forall h | h in before.headers && before.headers[h].number <= m :: h in after.headers)
    && (forall h {:trigger h in after.numbers} | h in before.numbers && h !in after.numbers :: Higher(before, h, m))
    && (forall h {:trigger h in after.bodies} | h in before.bodies && h !in after.bodies :: Higher(before, h, m))
    && (forall h | h in before.headers && h !in after.headers ::
          h !in after.numbers && (before.headers[h].number >= |before.ancientHashes| ==> h !in after.bodies))
    && (m < oldHead ==> forall h | h in after.headers && after.headers[h].number > m ::
          exists n :: oldHead < n <= after.headers[h].number && Bare(before, n))
  }

  lemma ForksAreGone(db: Data, d: Doomed, oldHead: nat, m: nat, gap: nat, after: Data)
    requires Covers(db, d, m, gap) && m <= oldHead < gap && (m < oldHead ==> HashesAt(db, gap) == {})
    requires after == Truncate(Flush(db, d), m)
    ensures ForksGone(db, after, oldHead, m)
  {
    forall h | m < oldHead && h in after.headers && after.headers[h].number > m
      ensures exists n :: oldHead < n <= after.headers[h].number && Bare(db, n)
    {
      assert forall x | x in db.headers && db.headers[x].number == gap :: x in HashesAt(db, gap);
      assert Bare(db, gap);
      assert after.headers[h].number >= gap;
    }
  }

  /** Everything that became durable since keeps all three heads readable after a restart. */
  ghost predicate AllDurable(before: seq<Db>, after: seq<Db>, g: Hash) {
    before <= after && forall i | |before| <= i < |after| :: Durable(after[i], g)
  }

  lemma DurableChains(before: seq<Db>, mid: seq<Db>, more: seq<Db>, g: Hash)
    requires AllDurable(before, mid, g) && AllDurable([], more, g)
    ensures AllDurable(before, mid + more, g)
  {
    assert forall i | |mid| <= i < |mid + more| :: (mid + more)[i] == more[i - |mid|];
  }

  lemma DurableGrows(before: seq<Db>, after: seq<Db>, next: Db, g: Hash)
    requires AllDurable(before, after, g) && Durable(next, g)
    ensures AllDurable(before, after + [next], g)
  {
  }
}
