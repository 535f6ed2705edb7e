/**
 * packages/portfolio-risk/src/types.ts and evaluate.ts: what a portfolio evaluation computes.
 *
 * Positions are first merged by instrument. What the evaluation and its canonical encoding read of a
 * merged position is a Record; the portfolio value is defined on a list of records.
 */
module PortfolioModel {
  import opened Wrappers
  import opened Arithmetic

  const WAD: int := 1_000_000_000_000_000_000
  const BPS: int := 10_000

  datatype Dimension = Underlying | Issuer | Custody | Sector | Liquidity

  const DIMENSIONS: seq<Dimension> := [Underlying, Issuer, Custody, Sector, Liquidity]

  datatype Session = Open | PreMarket | PostMarket | Closed | UnknownSession

  datatype GroupKind = Named | Unknown | NoGroup

  /** `groups` may lack a dimension, hold a null, or hold a possibly empty group id. */
  datatype Position = Position(
    instrumentId: string,
    homeDomain: string,
    recognizedUsd18: nat,
    marketUsd18: nat,
    session: Session,
    groups: map<Dimension, Option<string>>,
    depthUsd18: Option<int>)

  datatype Caps = Caps(named: int, unknown: int)

  datatype DimensionCaps = DimensionCaps(underlying: Caps, issuer: Caps, custody: Caps, sector: Caps, liquidity: Caps)

  datatype SessionFactors = SessionFactors(open: nat, preMarket: nat, postMarket: nat, closed: nat, unknown: nat)

  datatype Scenario = Scenario(id: string, haircutBps: nat, groupIds: seq<string>, sessions: seq<Session>)

  datatype Policy = Policy(
    policyId: string,
    version: nat,
    taxonomyVersion: string,
    caps: DimensionCaps,
    sessionFactors: SessionFactors,
    scenarios: seq<Scenario>,
    maxInstruments: nat,
    maxScenarios: nat)

  datatype PortfolioError =
    | TooManyInstruments
    | TooManyScenarios
    | UnknownCapAboveNamed(d: Dimension)
    | CapOutOfRange(d: Dimension)
    | ConflictingMetadata(instrumentId: string)

  function CapsOf(c: DimensionCaps, d: Dimension): Caps {
    match d
    case Underlying => c.underlying
    case Issuer => c.issuer
    case Custody => c.custody
    case Sector => c.sector
    case Liquidity => c.liquidity
  }

  predicate CapsValid(c: Caps) {
    0 <= c.unknown <= c.named <= BPS
  }

  predicate PolicyValid(policy: Policy) {
    forall d: Dimension :: CapsValid(CapsOf(policy.caps, d))
  }

  /** Every haircut is a fraction of the value. */
  predicate HaircutsValid(policy: Policy) {
    forall i :: 0 <= i < |policy.scenarios| ==> policy.scenarios[i].haircutBps <= BPS
  }

  function FactorOf(f: SessionFactors, s: Session): nat {
    match s
    case Open => f.open
    case PreMarket => f.preMarket
    case PostMarket => f.postMarket
    case Closed => f.closed
    case UnknownSession => f.unknown
  }

  function Min(a: int, b: int): int {
    if a < b then a else b
  }

  // ------------------------------------------------------------------------------ merging positions

  predicate SameMetadata(a: Position, b: Position) {
    a.session == b.session && a.homeDomain == b.homeDomain && a.groups == b.groups
  }

  function DepthOrZero(p: Position): int {
    p.depthUsd18.GetOr(0)
  }

  function Merge(e: Position, p: Position): Position {
    e.(recognizedUsd18 := e.recognizedUsd18 + p.recognizedUsd18,
       marketUsd18 := e.marketUsd18 + p.marketUsd18,
       depthUsd18 := if e.depthUsd18 == p.depthUsd18 then e.depthUsd18
                     else Some(Min(DepthOrZero(e), DepthOrZero(p))))
  }

  /** The first position with this id, or the length when there is none. */
  function IndexOf(ps: seq<Position>, id: string): (i: nat)
    ensures i <= |ps|
    ensures i < |ps| ==> ps[i].instrumentId == id
    ensures forall j :: 0 <= j < i ==> ps[j].instrumentId != id
  {
    if ps == [] || ps[0].instrumentId == id then 0 else 1 + IndexOf(ps[1..], id)
  }

  function Absorb(merged: seq<Position>, p: Position): Result<seq<Position>, PortfolioError> {
    var i := IndexOf(merged, p.instrumentId);
    if i == |merged| then Ok(merged + [p])
    else if !SameMetadata(merged[i], p) then Err(ConflictingMetadata(p.instrumentId))
    else Ok(merged[i := Merge(merged[i], p)])
  }

  /** One position per instrument, in order of first appearance. */
  function Dedupe(raw: seq<Position>): Result<seq<Position>, PortfolioError> {
    if raw == [] then Ok([])
    else
      var merged :- Dedupe(raw[..|raw| - 1]);
      Absorb(merged, raw[|raw| - 1])
  }

  // ------------------------------------------------------------------------------------- records

  datatype Groups = Groups(underlying: Option<string>, issuer: Option<string>, custody: Option<string>,
                           sector: Option<string>, liquidity: Option<string>)

  /** The evaluation's whole view of a position: missing and null groups alike, missing depth as zero. */
  datatype Record = Record(id: string, domain: string, recognized: nat, market: nat, session: Session,
                           groups: Groups, depth: int)

  function GroupIn(p: Position, d: Dimension): Option<string> {
    if d in p.groups then p.groups[d] else None
  }

  function RecordOf(p: Position): Record {
    Record(p.instrumentId, p.homeDomain, p.recognizedUsd18, p.marketUsd18, p.session,
           Groups(GroupIn(p, Underlying), GroupIn(p, Issuer), GroupIn(p, Custody),
                  GroupIn(p, Sector), GroupIn(p, Liquidity)),
           DepthOrZero(p))
  }

  function Records(ps: seq<Position>): (rs: seq<Record>)
    ensures |rs| == |ps|
  {
    seq(|ps|, i requires 0 <= i < |ps| => RecordOf(ps[i]))
  }

  function GroupId(g: Groups, d: Dimension): Option<string> {
    match d
    case Underlying => g.underlying
    case Issuer => g.issuer
    case Custody => g.custody
    case Sector => g.sector
    case Liquidity => g.liquidity
  }

  predicate HasGroup(r: Record, d: Dimension) {
    GroupId(r.groups, d).Some? && GroupId(r.groups, d).value != ""
  }

  function DimensionName(d: Dimension): string {
    match d
    case Underlying => "UNDERLYING"
    case Issuer => "ISSUER"
    case Custody => "CUSTODY"
    case Sector => "SECTOR"
    case Liquidity => "LIQUIDITY"
  }

  const NONE_KEY: string := "NONE"

  function UnknownKey(d: Dimension): string {
    "UNKNOWN_" + DimensionName(d)
  }

  function KindIn(r: Record, d: Dimension): GroupKind {
    if d == Liquidity then
      if !HasGroup(r, d) || r.depth <= 0 then NoGroup else Named
    else if !HasGroup(r, d) then Unknown else Named
  }

  function KeyIn(r: Record, d: Dimension): string {
    match KindIn(r, d)
    case NoGroup => NONE_KEY
    case Unknown => UnknownKey(d)
    case Named => GroupId(r.groups, d).value
  }

  /** No group id of the record is one of the keys the evaluation makes up. */
  predicate ReservedFree(r: Record) {
    forall d: Dimension :: HasGroup(r, d) ==>
      GroupId(r.groups, d).value != (if d == Liquidity then NONE_KEY else UnknownKey(d))
  }

  predicate AllReservedFree(rs: seq<Record>) {
    forall i :: 0 <= i < |rs| ==> ReservedFree(rs[i])
  }

  // ------------------------------------------------------------------------------------ group totals

  function Sum(rs: seq<Record>, f: Record -> nat): nat {
    if rs == [] then 0 else Sum(rs[..|rs| - 1], f) + f(rs[|rs| - 1])
  }

  function Recognized(): Record -> nat {
    (r: Record) => r.recognized
  }

  function Market(): Record -> nat {
    (r: Record) => r.market
  }

  predicate InGroup(r: Record, d: Dimension, key: string) {
    KindIn(r, d) != NoGroup && KeyIn(r, d) == key
  }

  function RecognizedIn(d: Dimension, key: string): Record -> nat {
    (r: Record) => if InGroup(r, d, key) then r.recognized else 0
  }

  function GroupTotal(rs: seq<Record>, d: Dimension, key: string): nat {
    Sum(rs, RecognizedIn(d, key))
  }

  /** The kind written last under a key, as the map of kinds keeps it. */
  function LastKind(rs: seq<Record>, d: Dimension, key: string): GroupKind {
    if rs == [] then NoGroup
    else if KeyIn(rs[|rs| - 1], d) == key then KindIn(rs[|rs| - 1], d)
    else LastKind(rs[..|rs| - 1], d, key)
  }

  /** The smallest depth declared on a route, zero when nobody declares one. */
  function RouteDepth(rs: seq<Record>, key: string): Option<nat> {
    if rs == [] then None
    else
      var before, r := RouteDepth(rs[..|rs| - 1], key), rs[|rs| - 1];
      if !InGroup(r, Liquidity, key) then before
      else if before.Some? then Some(Min(before.value, r.depth))
      else Some(r.depth)
  }

  // ------------------------------------------------------------------------------------------ scales

  function CapBps(policy: Policy, d: Dimension, kind: GroupKind): nat
    requires PolicyValid(policy)
  {
    if kind == Unknown then CapsOf(policy.caps, d).unknown else CapsOf(policy.caps, d).named
  }

  /** What a group may contribute: its share of the base and, on a route, the declared depth. */
  function Allowed(base: nat, policy: Policy, d: Dimension, kind: GroupKind, depth: Option<nat>): nat
    requires PolicyValid(policy)
  {
    FloorBounds(base * CapBps(policy, d, kind), BPS);
    var share := base * CapBps(policy, d, kind) / BPS;
    if d == Liquidity then Min(share, depth.GetOr(0)) else share
  }

  function Scaled(allowed: nat, total: nat): (s: nat)
    ensures s <= WAD
  {
    if total == 0 then WAD
    else
      FloorBounds(allowed * WAD, total);
      Min(WAD, allowed * WAD / total)
  }

  function GroupScale(rs: seq<Record>, base: nat, policy: Policy, d: Dimension, key: string): (s: nat)
    requires PolicyValid(policy)
    ensures s <= WAD
  {
    var kind := LastKind(rs, d, key);
    if kind == NoGroup then WAD
    else Scaled(Allowed(base, policy, d, kind, RouteDepth(rs, key)), GroupTotal(rs, d, key))
  }

  function DimensionScale(rs: seq<Record>, base: nat, policy: Policy, d: Dimension, r: Record): (s: nat)
    requires PolicyValid(policy)
    ensures s <= WAD
  {
    GroupScale(rs, base, policy, d, KeyIn(r, d))
  }

  function SessionScale(policy: Policy, s: Session): (scale: nat)
    ensures scale <= WAD
  {
    FloorShare(WAD, Min(BPS, FactorOf(policy.sessionFactors, s)), BPS);
    Min(BPS, FactorOf(policy.sessionFactors, s)) * WAD / BPS
  }

  /** The smallest of the session's scale and the first `n` dimensions' scales. */
  function ScaleUpTo(rs: seq<Record>, base: nat, policy: Policy, r: Record, n: nat): (scale: nat)
    requires PolicyValid(policy) && n <= |DIMENSIONS|
    ensures scale <= WAD
  {
    if n == 0 then SessionScale(policy, r.session)
    else Min(ScaleUpTo(rs, base, policy, r, n - 1), DimensionScale(rs, base, policy, DIMENSIONS[n - 1], r))
  }

  function PositionScale(rs: seq<Record>, base: nat, policy: Policy, r: Record): (scale: nat)
    requires PolicyValid(policy)
    ensures scale <= WAD
  {
    ScaleUpTo(rs, base, policy, r, |DIMENSIONS|)
  }

  // ------------------------------------------------------------------------------------------- value

  function Base(rs: seq<Record>): nat {
    Sum(rs, Recognized())
  }

  /** `recognized * scale / WAD`, rounded down. */
  function AtScale(recognized: nat, scale: nat): (v: nat)
    requires scale <= WAD
    ensures v <= recognized
  {
    FloorShare(recognized, scale, WAD);
    recognized * scale / WAD
  }

  function WorkingOf(rs: seq<Record>, policy: Policy, r: Record): nat
    requires PolicyValid(policy)
  {
    AtScale(r.recognized, PositionScale(rs, Base(rs), policy, r))
  }

  function Working(rs: seq<Record>, policy: Policy): Record -> nat
    requires PolicyValid(policy)
  {
    (r: Record) => WorkingOf(rs, policy, r)
  }

  predicate Hit(s: Scenario, r: Record) {
    r.session in s.sessions || exists d: Dimension :: HasGroup(r, d) && GroupId(r.groups, d).value in s.groupIds
  }

  function Haircut(w: nat, bps: nat): (v: nat)
    requires bps <= BPS
    ensures v <= w
  {
    FloorShare(w, BPS - bps, BPS);
    w * (BPS - bps) / BPS
  }

  function Stressed(rs: seq<Record>, policy: Policy, s: Scenario): Record -> nat
    requires PolicyValid(policy) && s.haircutBps <= BPS
  {
    (r: Record) =>
      if Hit(s, r) then Haircut(WorkingOf(rs, policy, r), s.haircutBps) else WorkingOf(rs, policy, r)
  }

  /** The least of the working total and the first `n` stressed totals. */
  function WorstOf(rs: seq<Record>, policy: Policy, n: nat): nat
    requires PolicyValid(policy) && HaircutsValid(policy) && n <= |policy.scenarios|
  {
    if n == 0 then Sum(rs, Working(rs, policy))
    else Min(WorstOf(rs, policy, n - 1), Sum(rs, Stressed(rs, policy, policy.scenarios[n - 1])))
  }

  /** The portfolio's recognised value. */
  function PortfolioValue(rs: seq<Record>, policy: Policy): nat
    requires PolicyValid(policy) && HaircutsValid(policy)
  {
    WorstOf(rs, policy, |policy.scenarios|)
  }

  // ------------------------------------------------------------------------------ canonical encoding

  /** Strings ordered by their code units. */
  predicate Before(a: string, b: string) {
    b != "" && (a == "" || a[0] < b[0] || (a[0] == b[0] && Before(a[1..], b[1..])))
  }

  function InsertById(r: Record, rs: seq<Record>): seq<Record> {
    if rs == [] || !Before(rs[0].id, r.id) then [r] + rs else [rs[0]] + InsertById(r, rs[1..])
  }

  /** The records sorted by instrument: what the digest of an evaluation is taken over. */
  function Canonical(rs: seq<Record>): seq<Record> {
    if rs == [] then [] else InsertById(rs[0], Canonical(rs[1..]))
  }
}
