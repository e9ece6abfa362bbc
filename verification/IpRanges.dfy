/**
 The cache of IP ranges: every stored range is an aligned block (section 3.1 of RFC 4632), the shortest block
 around an address answers for it, and whois is asked only when there is none or none short enough.
 */
module IpRanges {
  import opened Wrappers
  import FiniteSets

  type IpId = int
  type IspId = int
  type Address = int

  // ---------------------------------------------------------------- blocks

  function Pow2(k: nat): (p: nat)
    ensures p >= 1
  {
    if k == 0 then 1 else 2 * Pow2(k - 1)
  }

  /** 2^bits addresses, the first of which is a multiple of 2^bits. */
  datatype RawBlock = Block(first: Address, bits: nat)

  ghost predicate IsMultiple(a: int, s: int) {
    exists m :: a == m * s
  }

  ghost predicate IsBlock(b: RawBlock) {
    b.first >= 0 && b.bits <= 32 && IsMultiple(b.first, Pow2(b.bits))
  }

  function Last(b: RawBlock): Address {
    b.first + Pow2(b.bits) - 1
  }

  predicate Contains(b: RawBlock, a: Address) {
    b.first <= a <= Last(b)
  }

  lemma PowSum(j: nat, k: nat)
    ensures Pow2(j + k) == Pow2(j) * Pow2(k)
  {
    if j > 0 {
      PowSum(j - 1, k);
    }
  }

  lemma MultipleOfSmaller(a: int, j: nat, k: nat)
    requires j <= k && IsMultiple(a, Pow2(k))
    ensures IsMultiple(a, Pow2(j))
  {
    var m :| a == m * Pow2(k);
    PowSum(j, k - j);
    Reassociate(m, Pow2(j), Pow2(k - j));
    MultipleBy(a, m * Pow2(k - j), Pow2(j));
  }

  lemma Reassociate(m: int, s: int, q: int)
    ensures m * (s * q) == (m * q) * s
  {
  }

  lemma MultipleBy(a: int, m: int, s: int)
    requires a == m * s
    ensures IsMultiple(a, s)
  {
  }

  lemma ProductGrows(m: int, n: int, s: int)
    requires m <= n && s > 0
    ensures m * s <= n * s
  {
    assert (n - m) * s >= 0;
  }

  lemma MultiplesApart(a: int, b: int, s: int)
    requires s > 0 && IsMultiple(a, s) && IsMultiple(b, s) && a < b
    ensures a + s <= b
  {
    var m :| a == m * s;
    var n :| b == n * s;
    if n <= m { ProductGrows(n, m, s); }
    ProductGrows(m + 1, n, s);
  }

  /** A block that shares an address with one at least as long lies within it. */
  lemma NestedOrDisjoint(a: RawBlock, b: RawBlock, x: Address)
    requires IsBlock(a) && IsBlock(b) && a.bits <= b.bits && Contains(a, x) && Contains(b, x)
    ensures b.first <= a.first && Last(a) <= Last(b)
    ensures a.bits == b.bits ==> a == b
  {
    var s, t := Pow2(a.bits), Pow2(b.bits);
    MultipleOfSmaller(b.first, a.bits, b.bits);
    EndIsMultiple(b, a.bits);
    if a.first < b.first {
      MultiplesApart(a.first, b.first, s);
    }
    if b.first < a.first && a.bits == b.bits {
      MultiplesApart(b.first, a.first, s);
    }
    MultiplesApart(a.first, b.first + t, s);
  }

  lemma EndIsMultiple(b: RawBlock, j: nat)
    requires IsBlock(b) && j <= b.bits
    ensures IsMultiple(b.first + Pow2(b.bits), Pow2(j))
  {
    var m :| b.first == m * Pow2(b.bits);
    assert b.first + Pow2(b.bits) == (m + 1) * Pow2(b.bits);
    MultipleOfSmaller(b.first + Pow2(b.bits), j, b.bits);
  }

  lemma PowGrows(j: nat, k: nat)
    requires j < k
    ensures Pow2(j) < Pow2(k)
  {
    PowSum(j, k - j);
    PowGrowsOne(k - j);
    assert Pow2(j) * 2 <= Pow2(j) * Pow2(k - j);
  }

  lemma PowGrowsOne(k: nat)
    requires k > 0
    ensures Pow2(k) >= 2
  {
  }

  // ---------------------------------------------------------------- the tables

  datatype IpRow = IpRow(block: RawBlock, isp: Option<IspId>, created: int)

  datatype Isp = Isp(name: Option<string>, country: Option<string>)

  datatype Cache = Cache(ips: map<IpId, IpRow>, isps: map<IspId, Isp>, nextIp: IpId, nextIsp: IspId)

  /** Ranges longer than this are too broad to be accepted without asking again. */
  const ACCEPTED_LENGTH := 256 * 256 * 64

  /** How long a range is kept, in seconds. */
  const EXPIRY := 180 * 24 * 60 * 60

  /** The annotated length of a range. */
  function Length(row: IpRow): int {
    if Last(row.block) > 1 then Last(row.block) - row.block.first else 0
  }

  function Around(ips: map<IpId, IpRow>, a: Address): set<IpId> {
    set id | id in ips && Contains(ips[id].block, a)
  }

  /** A row that ordering by length may put first. */
  ghost predicate IsShortest(ips: map<IpId, IpRow>, a: Address, id: IpId) {
    id in Around(ips, a) && forall other :: other in Around(ips, a) ==> Length(ips[id]) <= Length(ips[other])
  }

  /** Some range around the address is short enough. */
  ghost predicate Covered(ips: map<IpId, IpRow>, a: Address) {
    exists id :: id in Around(ips, a) && Length(ips[id]) <= ACCEPTED_LENGTH
  }

  ghost predicate Valid(c: Cache) {
    && (forall id :: id in c.ips ==> id < c.nextIp && IsBlock(c.ips[id].block)
                                     && c.ips[id].isp.Some? && c.ips[id].isp.value in c.isps)
    && (forall i, j :: i in c.ips && j in c.ips && c.ips[i].block == c.ips[j].block ==> i == j)
    && (forall id :: id in c.isps ==> id < c.nextIsp)
    && (forall i, j :: i in c.isps && j in c.isps && c.isps[i].name.Some? && c.isps[i] == c.isps[j] ==> i == j)
  }

  // ---------------------------------------------------------------- longest-prefix match

  lemma LengthOrdersBits(a: IpRow, b: IpRow)
    requires IsBlock(a.block) && IsBlock(b.block) && Last(a.block) > 1 && Last(b.block) > 1
    ensures Length(a) <= Length(b) <==> a.block.bits <= b.block.bits
  {
    if a.block.bits < b.block.bits { PowGrows(a.block.bits, b.block.bits); }
    if b.block.bits < a.block.bits { PowGrows(b.block.bits, a.block.bits); }
  }

  /**
   Among stored ranges that end above address 1, the shortest around an address is unique and lies within all
   others around it: the match is the longest-prefix match.
   */
  lemma LongestPrefixMatch(c: Cache, a: Address, id: IpId, other: IpId)
    requires Valid(c) && id in Around(c.ips, a) && other in Around(c.ips, a)
    requires Last(c.ips[id].block) > 1 && Last(c.ips[other].block) > 1
    requires Length(c.ips[id]) <= Length(c.ips[other])
    ensures c.ips[other].block.first <= c.ips[id].block.first && Last(c.ips[id].block) <= Last(c.ips[other].block)
    ensures Length(c.ips[id]) == Length(c.ips[other]) ==> id == other
  {
    LengthOrdersBits(c.ips[id], c.ips[other]);
    LengthOrdersBits(c.ips[other], c.ips[id]);
    NestedOrDisjoint(c.ips[id].block, c.ips[other].block, a);
  }

  /** Two different ranges around an address tie in length if and only if both end at address 0 or 1. */
  lemma TieIffBelowTwo(c: Cache, a: Address, id: IpId, other: IpId)
    requires Valid(c) && id in Around(c.ips, a) && other in Around(c.ips, a) && id != other
    ensures Length(c.ips[id]) == Length(c.ips[other])
       <==> Last(c.ips[id].block) <= 1 && Last(c.ips[other].block) <= 1
  {
    var x, y := c.ips[id], c.ips[other];
    assert x.block.first <= a <= Last(x.block) && y.block.first <= a <= Last(y.block);
    if Last(x.block) > 1 && Last(y.block) > 1 && Length(x) == Length(y) {
      LongestPrefixMatch(c, a, id, other);
    }
  }

  // ---------------------------------------------------------------- whois

  /** One comma-separated piece of a range list: nothing, no network, or a network. */
  datatype CidrText = Blank | Bad | Good(block: RawBlock)

  datatype Whois =
    | Unreachable
    | NoNetworks
    | Answer(cidrs: seq<CidrText>, description: Option<string>, country: Option<string>)

  /** Text parsed as a network is an aligned block. */
  ghost predicate Parsed(reply: Whois) {
    reply.Answer? ==> forall i :: 0 <= i < |reply.cidrs| && reply.cidrs[i].Good? ==> IsBlock(reply.cidrs[i].block)
  }

  datatype Finding = Finding(description: Option<string>, country: Option<string>, block: RawBlock)

  /** The first network of a list around the address, unless a piece before it is no network. */
  function Picked(cidrs: seq<CidrText>, a: Address): Option<RawBlock> {
    if cidrs == [] || cidrs[0].Bad? then None
    else if cidrs[0].Good? && Contains(cidrs[0].block, a) then Some(cidrs[0].block)
    else Picked(cidrs[1..], a)
  }

  /** What a lookup finds out, None standing for any failure. */
  function Found(a: Address, special: Option<string>, reply: Whois): Option<Finding> {
    if special.Some? then Some(Finding(special, None, Block(a, 0)))
    else if !reply.Answer? then None
    else
      var block := if |reply.cidrs| == 1 then
                     if reply.cidrs[0].Good? then Some(reply.cidrs[0].block) else None
                   else Picked(reply.cidrs, a);
      if block.None? || !Contains(block.value, a) then None
      else Some(Finding(reply.description, reply.country, block.value))
  }

  method PickProperCidrFromList(cidrs: seq<CidrText>, a: Address) returns (r: Option<RawBlock>)
    ensures r == Picked(cidrs, a)
  {
    var i := 0;
    while i < |cidrs|
      invariant 0 <= i <= |cidrs|
      invariant Picked(cidrs, a) == Picked(cidrs[i..], a)
    {
      if cidrs[i].Bad? { return None; }
      if cidrs[i].Good? && Contains(cidrs[i].block, a) { return Some(cidrs[i].block); }
      assert cidrs[i..][1..] == cidrs[i + 1..];
      i := i + 1;
    }
    return None;
  }

  method QueryIpAddress(a: Address, special: Option<string>, reply: Whois) returns (r: Option<Finding>)
    ensures r == Found(a, special, reply)
  {
    // reserved addresses are known without asking
    if special.Some? { return Some(Finding(special, None, Block(a, 0))); }
    if !reply.Answer? { return None; }
    var block: Option<RawBlock>;
    if |reply.cidrs| != 1 {
      block := PickProperCidrFromList(reply.cidrs, a);
    } else {
      block := if reply.cidrs[0].Good? then Some(reply.cidrs[0].block) else None;
    }
    if block.None? { return None; }
    // an empty range is no answer
    if !(block.value.first <= Last(block.value)) { return None; }
    // neither is a range elsewhere
    if !Contains(block.value, a) { return None; }
    return Some(Finding(reply.description, reply.country, block.value));
  }

  /** A finding is an aligned block around the address. */
  lemma {:induction false} FoundAround(a: Address, special: Option<string>, reply: Whois)
    requires a >= 0 && Parsed(reply) && Found(a, special, reply).Some?
    ensures IsBlock(Found(a, special, reply).value.block) && Contains(Found(a, special, reply).value.block, a)
  {
    if special.Some? {
      assert a == a * Pow2(0);
    } else {
      PickedIsBlock(reply.cidrs, a);
    }
  }

  lemma {:induction false} PickedIsBlock(cidrs: seq<CidrText>, a: Address)
    requires forall i :: 0 <= i < |cidrs| && cidrs[i].Good? ==> IsBlock(cidrs[i].block)
    ensures Picked(cidrs, a).Some? ==> IsBlock(Picked(cidrs, a).value)
  {
    if cidrs != [] {
      PickedIsBlock(cidrs[1..], a);
    }
  }

  /** The first network around the address is this one, and no piece before it is other than a network or blank. */
  ghost predicate IsFirstAround(cidrs: seq<CidrText>, a: Address, b: RawBlock) {
    Contains(b, a) && exists i :: IsFirstAt(cidrs, a, b, i)
  }

  ghost predicate IsFirstAt(cidrs: seq<CidrText>, a: Address, b: RawBlock, i: int) {
    && 0 <= i < |cidrs| && cidrs[i] == Good(b)
    && forall j :: 0 <= j < i ==> !cidrs[j].Bad? && (cidrs[j].Good? ==> !Contains(cidrs[j].block, a))
  }

  lemma {:induction false} PickedIff(cidrs: seq<CidrText>, a: Address, b: RawBlock)
    ensures Picked(cidrs, a) == Some(b) <==> IsFirstAround(cidrs, a, b)
  {
    if cidrs != [] {
      PickedIff(cidrs[1..], a, b);
      if IsFirstAround(cidrs[1..], a, b) && !cidrs[0].Bad? && (cidrs[0].Good? ==> !Contains(cidrs[0].block, a)) {
        var i :| IsFirstAt(cidrs[1..], a, b, i);
        assert IsFirstAt(cidrs, a, b, i + 1);
      }
      if i :| IsFirstAt(cidrs, a, b, i) {
        if i > 0 { FirstInRest(cidrs, a, b, i); }
      }
      if Picked(cidrs, a) == Some(b) && cidrs[0] == Good(b) { assert IsFirstAt(cidrs, a, b, 0); }
    }
  }

  lemma FirstInRest(cidrs: seq<CidrText>, a: Address, b: RawBlock, i: int)
    requires IsFirstAt(cidrs, a, b, i) && i > 0
    ensures IsFirstAt(cidrs[1..], a, b, i - 1)
  {
    assert forall j :: 0 <= j < i - 1 ==> cidrs[1..][j] == cidrs[j + 1];
  }

  /**
   What is found out, in full: a reserved address names itself; otherwise the answer's first network around the
   address with the answer's description and country, whether the answer lists one network or several.
   */
  lemma FoundIff(a: Address, special: Option<string>, reply: Whois, f: Finding)
    ensures Found(a, special, reply) == Some(f)
       <==> if special.Some? then f == Finding(special, None, Block(a, 0))
            else reply.Answer? && f.description == reply.description && f.country == reply.country
                 && IsFirstAround(reply.cidrs, a, f.block)
  {
    if special.None? && reply.Answer? {
      PickedIff(reply.cidrs, a, f.block);
      OnlyOne(reply.cidrs, a, f.block);
    }
  }

  lemma OnlyOne(cidrs: seq<CidrText>, a: Address, b: RawBlock)
    ensures |cidrs| == 1 ==> (IsFirstAround(cidrs, a, b) <==> cidrs[0] == Good(b) && Contains(b, a))
  {
    if |cidrs| == 1 && cidrs[0] == Good(b) { assert IsFirstAt(cidrs, a, b, 0); }
  }

  // ---------------------------------------------------------------- storing a finding

  /** An empty text counts as missing. */
  function Given(o: Option<string>): Option<string> {
    if o.Some? && o.value != "" then o else None
  }

  function IspOf(f: Finding): Isp {
    Isp(Given(f.description), Given(f.country))
  }

  function RowsOf(c: Cache, block: RawBlock): set<IpId> {
    set id | id in c.ips && c.ips[id].block == block
  }

  function IspsLike(c: Cache, isp: Isp): set<IspId> {
    set id | id in c.isps && c.isps[id] == isp
  }

  /** A named provider is looked up before it is created; an unnamed one is always created. */
  predicate ReusesIsp(c: Cache, f: Finding) {
    IspOf(f).name.Some? && IspsLike(c, IspOf(f)) != {}
  }

  function IspFor(c: Cache, f: Finding): IspId {
    if ReusesIsp(c, f) then FiniteSets.Min(IspsLike(c, IspOf(f))) else c.nextIsp
  }

  /** The cache once a finding is stored; a range that is already stored stays as it is. */
  function Stored(c: Cache, f: Finding, now: int): Cache {
    if RowsOf(c, f.block) != {} then c
    else
      var isps := if ReusesIsp(c, f) then c.isps else c.isps[c.nextIsp := IspOf(f)];
      Cache(c.ips[c.nextIp := IpRow(f.block, Some(IspFor(c, f)), now)], isps,
            c.nextIp + 1, if ReusesIsp(c, f) then c.nextIsp else c.nextIsp + 1)
  }

  /** The cache after one lookup. */
  ghost function LookedUp(c: Cache, a: Address, now: int, special: Option<string>, reply: Whois): Cache {
    if Covered(c.ips, a) || Found(a, special, reply).None? then c
    else Stored(c, Found(a, special, reply).value, now)
  }

  // ---------------------------------------------------------------- the provider of a new range

  ghost predicate HasRange(c: Cache, block: RawBlock) {
    exists id :: id in c.ips && c.ips[id].block == block
  }

  /** The provider of this description and country, of which an empty text is none. */
  ghost predicate IsProvider(isp: Isp, description: Option<string>, country: Option<string>) {
    && isp.name == (if description == Some("") then None else description)
    && isp.country == (if country == Some("") then None else country)
  }

  /** There is a description, and a provider has it as its name and this country. */
  ghost predicate IsKnown(c: Cache, description: Option<string>, country: Option<string>) {
    && description.Some? && description.value != ""
    && exists i :: i in c.isps && IsProvider(c.isps[i], description, country)
  }

  /**
   The range is new and belongs to a provider of this description and country, which is new just when it was not
   known; no other range or provider is added or changed.
   */
  ghost predicate IsAdded(before: Cache, after: Cache, range: IpRow, description: Option<string>,
                          country: Option<string>, created: bool) {
    && range.isp.Some? && range.isp.value in after.isps
    && IsProvider(after.isps[range.isp.value], description, country)
    && (created <==> !IsKnown(before, description, country))
    && (if created then range.isp.value !in before.isps
                        && after.isps == before.isps[range.isp.value := after.isps[range.isp.value]]
        else after.isps == before.isps)
    && exists id :: id !in before.ips && after.ips == before.ips[id := range]
  }

  /** What storing a finding does and returns. */
  ghost predicate IsStoring(before: Cache, after: Cache, block: RawBlock, description: Option<string>,
                            country: Option<string>, now: int, isp: Option<IspId>, created: bool) {
    if HasRange(before, block) then
      && after == before && !created
      && exists id :: id in before.ips && before.ips[id].block == block && isp == before.ips[id].isp
    else IsAdded(before, after, IpRow(block, isp, now), description, country, created)
  }

  lemma OfIsProvider(f: Finding)
    ensures forall isp :: IsProvider(isp, f.description, f.country) <==> isp == IspOf(f)
  {
  }

  lemma KnownIsReused(c: Cache, f: Finding)
    ensures IsKnown(c, f.description, f.country) <==> ReusesIsp(c, f)
  {
    OfIsProvider(f);
    forall i ensures i in IspsLike(c, IspOf(f)) <==> i in c.isps && IsProvider(c.isps[i], f.description, f.country) {}
    if ReusesIsp(c, f) {
      var i := FiniteSets.Min(IspsLike(c, IspOf(f)));
      assert i in c.isps && IsProvider(c.isps[i], f.description, f.country);
    }
  }

  lemma NoRowIff(c: Cache, block: RawBlock)
    ensures HasRange(c, block) <==> RowsOf(c, block) != {}
  {
    forall id ensures id in RowsOf(c, block) <==> id in c.ips && c.ips[id].block == block {}
    if RowsOf(c, block) != {} {
      var id := FiniteSets.Min(RowsOf(c, block));
      assert id in c.ips && c.ips[id].block == block;
    }
  }

  lemma StoredIsAdded(c: Cache, f: Finding, now: int)
    requires Valid(c) && IsBlock(f.block) && RowsOf(c, f.block) == {}
    ensures IsAdded(c, Stored(c, f, now), IpRow(f.block, Some(IspFor(c, f)), now), f.description, f.country,
                    !ReusesIsp(c, f))
  {
    OfIsProvider(f);
    KnownIsReused(c, f);
    assert c.nextIp !in c.ips && c.nextIsp !in c.isps;
    if ReusesIsp(c, f) { assert IspFor(c, f) in IspsLike(c, IspOf(f)); }
  }

  lemma StoredValid(c: Cache, f: Finding, now: int)
    requires Valid(c) && IsBlock(f.block)
    ensures Valid(Stored(c, f, now))
  {
    var after := Stored(c, f, now);
    if RowsOf(c, f.block) == {} {
      forall i | i in c.ips ensures c.ips[i].block != f.block {
        assert i !in RowsOf(c, f.block);
      }
      forall i | i in c.isps ensures c.isps[i] == IspOf(f) ==> i in IspsLike(c, IspOf(f)) {}
    }
  }

  lemma LookedUpValid(c: Cache, a: Address, now: int, special: Option<string>, reply: Whois)
    requires Valid(c) && a >= 0 && Parsed(reply)
    ensures Valid(LookedUp(c, a, now, special, reply))
  {
    if Found(a, special, reply).Some? {
      FoundAround(a, special, reply);
      StoredValid(c, Found(a, special, reply).value, now);
    }
  }

  lemma ShortestExists(ips: map<IpId, IpRow>, a: Address) returns (id: IpId)
    requires Around(ips, a) != {}
    ensures IsShortest(ips, a, id)
  {
    id := FiniteSets.Least(Around(ips, a), x => if x in ips then Length(ips[x]) else 0);
  }

  lemma MinUnlessCovered(ips: map<IpId, IpRow>, a: Address, id: IpId)
    requires IsShortest(ips, a, id)
    ensures Length(ips[id]) <= ACCEPTED_LENGTH <==> Covered(ips, a)
  {
  }

  class IspManager {
    var ips: map<IpId, IpRow>
    var isps: map<IspId, Isp>
    var nextIp: IpId
    var nextIsp: IspId

    constructor ()
      ensures State() == Cache(map[], map[], 1, 1)
    {
      ips, isps, nextIp, nextIsp := map[], map[], 1, 1;
    }

    function State(): Cache
      reads this
    {
      Cache(ips, isps, nextIp, nextIsp)
    }

    /** The provider of a shortest range around the address, with the range's length. */
    method Match(a: Address) returns (r: Option<(Option<IspId>, int)>)
      ensures r.None? <==> Around(ips, a) == {}
      ensures r.Some? ==> exists id :: IsShortest(ips, a, id) && r.value == (ips[id].isp, Length(ips[id]))
    {
      var around := Around(ips, a);
      if around == {} { return None; }
      ghost var least := ShortestExists(ips, a);
      var first := set id | id in around && forall other :: other in around ==> Length(ips[id]) <= Length(ips[other]);
      assert least in first;
      var id := FiniteSets.Pick(first);
      assert IsShortest(ips, a, id);
      return Some((ips[id].isp, Length(ips[id])));
    }

    /**
     Find the provider of an address, asking whois when no stored range is short enough.  The result is the
     provider, whether it was created, and whether whois was asked.
     */
    method MatchOrCreate(a: Address, now: int, special: Option<string>, reply: Whois)
      returns (isp: Option<IspId>, created: bool, asked: bool)
      requires Valid(State()) && a >= 0 && Parsed(reply)
      modifies this
      ensures Valid(State()) && State() == LookedUp(old(State()), a, now, special, reply)
      ensures asked <==> !Covered(old(ips), a)
      ensures !asked || Found(a, special, reply).None? ==>
                !created && (if Around(ips, a) == {} then isp == None
                             else exists id :: IsShortest(ips, a, id) && isp == ips[id].isp)
      ensures asked && Found(a, special, reply).Some? ==>
                exists id :: id in ips && ips[id].block == Found(a, special, reply).value.block && isp == ips[id].isp
      ensures created <==> isp.Some? && isp.value !in old(isps)
      ensures asked && special.Some? ==>
                IsStoring(old(State()), State(), Block(a, 0), special, None, now, isp, created)
      ensures asked && special.None? && Found(a, special, reply).Some? ==>
                reply.Answer? && exists block ::
                  IsFirstAround(reply.cidrs, a, block)
                  && IsStoring(old(State()), State(), block, reply.description, reply.country, now, isp, created)
    {
      ghost var c := State();
      var fallback: Option<IspId> := None;
      // what the stored ranges say
      var matched := Match(a);
      if matched.Some? {
        ghost var id :| IsShortest(ips, a, id) && matched.value == (ips[id].isp, Length(ips[id]));
        MinUnlessCovered(ips, a, id);
        // a range that is too broad serves only when whois has no answer
        if matched.value.1 > ACCEPTED_LENGTH {
          fallback := matched.value.0;
        } else {
          return matched.value.0, false, false;
        }
      }
      assert !Covered(ips, a);
      asked := true;
      var found := QueryIpAddress(a, special, reply);
      if found.None? { return fallback, false, true; }
      FoundAround(a, special, reply);
      FoundIff(a, special, reply, found.value);
      isp, created := Store(found.value, now);
    }

    /** Insert a range with its provider, unless the range is there already. */
    method Store(f: Finding, now: int) returns (isp: Option<IspId>, created: bool)
      requires Valid(State()) && IsBlock(f.block)
      modifies this
      ensures Valid(State()) && State() == Stored(old(State()), f, now)
      ensures exists id :: id in ips && ips[id].block == f.block && isp == ips[id].isp
      ensures created <==> isp.Some? && isp.value !in old(isps)
      ensures IsStoring(old(State()), State(), f.block, f.description, f.country, now, isp, created)
    {
      StoredValid(State(), f, now);
      NoRowIff(State(), f.block);
      if RowsOf(State(), f.block) == {} { StoredIsAdded(State(), f, now); }
      var rows := RowsOf(State(), f.block);
      if rows != {} {
        // whois named a range that is stored already
        var row := FiniteSets.Min(rows);
        assert row in ips && ips[row].block == f.block;
        return ips[row].isp, false;
      }
      var like := IspsLike(State(), IspOf(f));
      var provider;
      if IspOf(f).name.Some? && like != {} {
        provider, created := FiniteSets.Min(like), false;
      } else {
        provider, created := nextIsp, true;
        isps := isps[nextIsp := IspOf(f)];
        nextIsp := nextIsp + 1;
      }
      isp := Some(provider);
      ips := ips[nextIp := IpRow(f.block, isp, now)];
      assert nextIp in ips && ips[nextIp].block == f.block && isp == ips[nextIp].isp;
      nextIp := nextIp + 1;
    }

    /** Remove the ranges that are no longer fresh, and nothing else. */
    method DeleteExpired(now: int)
      modifies this`ips
      ensures State() == Pruned(old(State()), now)
      ensures forall id :: id in ips <==> id in old(ips) && now - old(ips)[id].created <= EXPIRY
      ensures forall id :: id in ips ==> ips[id] == old(ips)[id]
      ensures old(Valid(State())) ==> Valid(State())
    {
      ips := map id | id in ips && ips[id].created >= now - EXPIRY :: ips[id];
    }
  }

  // ---------------------------------------------------------------- runs

  function Pruned(c: Cache, now: int): Cache {
    c.(ips := map id | id in c.ips && c.ips[id].created >= now - EXPIRY :: c.ips[id])
  }

  datatype Event =
    | Lookup(address: Address, now: int, special: Option<string>, reply: Whois)
    | DeleteExpired(at: int)

  ghost function Next(c: Cache, e: Event): Cache {
    match e
    case Lookup(a, now, special, reply) => LookedUp(c, a, now, special, reply)
    case DeleteExpired(at) => Pruned(c, at)
  }

  ghost function Run(c: Cache, es: seq<Event>): Cache {
    if es == [] then c else Next(Run(c, es[..|es| - 1]), es[|es| - 1])
  }

  /** The run never deletes the row. */
  ghost predicate Spares(row: IpRow, es: seq<Event>) {
    forall i :: 0 <= i < |es| && es[i].DeleteExpired? ==> row.created >= es[i].at - EXPIRY
  }

  ghost predicate Proper(es: seq<Event>) {
    forall i :: 0 <= i < |es| && es[i].Lookup? ==> es[i].address >= 0 && Parsed(es[i].reply)
  }

  /** The invariant of the tables over any run. */
  lemma {:induction false} RunValid(c: Cache, es: seq<Event>)
    requires Valid(c) && Proper(es)
    ensures Valid(Run(c, es))
  {
    if es != [] {
      var init, e := es[..|es| - 1], es[|es| - 1];
      RunValid(c, init);
      if e.Lookup? { LookedUpValid(Run(c, init), e.address, e.now, e.special, e.reply); }
    }
  }

  lemma {:induction false} RowStays(c: Cache, id: IpId, es: seq<Event>)
    requires Valid(c) && id in c.ips && Spares(c.ips[id], es) && Proper(es)
    ensures id in Run(c, es).ips && Run(c, es).ips[id] == c.ips[id]
  {
    if es != [] {
      var init, e := es[..|es| - 1], es[|es| - 1];
      RowStays(c, id, init);
      RunValid(c, init);
      var before := Run(c, init);
      if e.Lookup? && Found(e.address, e.special, e.reply).Some? {
        assert id != before.nextIp;
      }
    }
  }

  /**
   Once a range of acceptable length is stored, no address in it makes a lookup ask whois, in any later state,
   whatever else is stored, until that row is deleted.
   */
  lemma NeverAskedAgain(c: Cache, id: IpId, es: seq<Event>, a: Address)
    requires Valid(c) && id in c.ips && Length(c.ips[id]) <= ACCEPTED_LENGTH && Contains(c.ips[id].block, a)
    requires Spares(c.ips[id], es) && Proper(es)
    ensures Covered(Run(c, es).ips, a)
  {
    RowStays(c, id, es);
    assert id in Around(Run(c, es).ips, a);
  }

  /**
   Right after a lookup has stored a new range of acceptable length, that range is the only possible match for
   the address, so the match is the provider just returned.
   */
  lemma FreshRangeMatches(c: Cache, a: Address, now: int, special: Option<string>, reply: Whois, id: IpId)
    requires Valid(c) && a >= 0 && Parsed(reply) && !Covered(c.ips, a)
    requires Found(a, special, reply).Some? && RowsOf(c, Found(a, special, reply).value.block) == {}
    requires var after := LookedUp(c, a, now, special, reply);
             Length(after.ips[c.nextIp]) <= ACCEPTED_LENGTH && IsShortest(after.ips, a, id)
    ensures id == c.nextIp
    ensures LookedUp(c, a, now, special, reply).ips[id].isp == Some(IspFor(c, Found(a, special, reply).value))
  {
    var after := LookedUp(c, a, now, special, reply);
    FoundAround(a, special, reply);
    assert c.nextIp in Around(after.ips, a);
    forall x | x in Around(c.ips, a)
      ensures Length(c.ips[x]) > ACCEPTED_LENGTH && Length(after.ips[x]) > ACCEPTED_LENGTH {}
    assert forall x :: x in Around(after.ips, a) ==> x in Around(c.ips, a) || x == c.nextIp;
  }

  // ---------------------------------------------------------------- when the match is unique

  /** Ranges that end at address 0 or 1 hold one address each. */
  ghost predicate SingleBelowTwo(c: Cache) {
    forall id :: id in c.ips && Last(c.ips[id].block) <= 1 ==> c.ips[id].block.bits == 0
  }

  /** Addresses 0 and 1 are known to be special, as the reserved network 0.0.0.0/8 makes them. */
  ghost predicate ReservedBelowTwo(es: seq<Event>) {
    forall i :: 0 <= i < |es| && es[i].Lookup? && es[i].address <= 1 ==> es[i].special.Some?
  }

  lemma {:induction false} RunSingleBelowTwo(c: Cache, es: seq<Event>)
    requires Valid(c) && SingleBelowTwo(c) && Proper(es) && ReservedBelowTwo(es)
    ensures SingleBelowTwo(Run(c, es))
  {
    if es != [] {
      var init, e := es[..|es| - 1], es[|es| - 1];
      RunSingleBelowTwo(c, init);
      if e.Lookup? && Found(e.address, e.special, e.reply).Some? {
        FoundAround(e.address, e.special, e.reply);
      }
    }
  }

  const EMPTY := Cache(map[], map[], 1, 1)

  /** As long as addresses 0 and 1 count as reserved, every run leaves a unique longest-prefix match everywhere. */
  lemma RunMatchUnique(es: seq<Event>, a: Address, id: IpId, other: IpId)
    requires Proper(es) && ReservedBelowTwo(es)
    requires id in Around(Run(EMPTY, es).ips, a) && other in Around(Run(EMPTY, es).ips, a)
    requires Length(Run(EMPTY, es).ips[id]) == Length(Run(EMPTY, es).ips[other])
    ensures id == other
  {
    var c := Run(EMPTY, es);
    RunValid(EMPTY, es);
    RunSingleBelowTwo(EMPTY, es);
    if id != other { NoTie(c, a, id, other); }
  }

  lemma NoTie(c: Cache, a: Address, id: IpId, other: IpId)
    requires Valid(c) && SingleBelowTwo(c) && id in Around(c.ips, a) && other in Around(c.ips, a) && id != other
    ensures Length(c.ips[id]) != Length(c.ips[other])
  {
    TieIffBelowTwo(c, a, id, other);
    var x, y := c.ips[id].block, c.ips[other].block;
    assert Pow2(0) == 1;
    assert x.bits == 0 && y.bits == 0 ==> x == y;
  }

  /** What a lookup stores when whois names one new block around an address that is not covered. */
  lemma LookupStores(c: Cache, a: Address, now: int, b: RawBlock)
    requires !Covered(c.ips, a) && Contains(b, a) && forall id :: id in c.ips ==> c.ips[id].block != b
    ensures var after := LookedUp(c, a, now, None, Answer([Good(b)], None, None));
            after.ips == c.ips[c.nextIp := IpRow(b, Some(c.nextIsp), now)] && after.nextIp == c.nextIp + 1
  {
    forall id ensures id !in RowsOf(c, b) {}
    assert RowsOf(c, b) == {};
  }

  function Naming(a: Address, b: RawBlock): Event {
    Lookup(a, 0, None, Answer([Good(b)], None, None))
  }

  lemma RunOfTwo(c: Cache, d: Event, e: Event)
    ensures Run(c, [d, e]) == Next(Next(c, d), e)
  {
    assert [d, e][..1] == [d] && [d][..0] == [];
    assert Run(c, [d]) == Next(c, d);
  }

  lemma NotAround(ips: map<IpId, IpRow>, id: IpId, row: IpRow, a: Address)
    requires ips == map[][id := row] && !Contains(row.block, a)
    ensures !Covered(ips, a)
  {
  }

  /** Two rows of length 0 around an address are both shortest. */
  lemma BothShortest(ips: map<IpId, IpRow>, a: Address, id: IpId, other: IpId, x: IpRow, y: IpRow)
    requires ips == map[][id := x][other := y] && id != other
    requires Contains(x.block, a) && Contains(y.block, a) && Last(x.block) <= 1 && Last(y.block) <= 1
    ensures IsShortest(ips, a, id) && IsShortest(ips, a, other)
  {
    assert ips[id] == x && ips[other] == y && forall k :: k in ips ==> k == id || k == other;
  }

  lemma FirstStored(one: RawBlock)
    requires Contains(one, 0)
    ensures var c := Next(EMPTY, Naming(0, one)); c.ips == map[][1 := IpRow(one, Some(1), 0)] && c.nextIp == 2
  {
    assert forall id :: id !in Around(EMPTY.ips, 0);
    LookupStores(EMPTY, 0, 0, one);
  }

  lemma SecondStored(c: Cache, one: IpRow, two: RawBlock)
    requires c.ips == map[][1 := one] && c.nextIp == 2 && !Contains(one.block, 1) && Contains(two, 1)
    ensures Next(c, Naming(1, two)).ips == map[][1 := one][2 := IpRow(two, Some(c.nextIsp), 0)]
  {
    NotAround(c.ips, 1, one, 1);
    assert c.ips[1].block != two;
    LookupStores(c, 1, 0, two);
  }

  /** After the run two rows are shortest around the address. */
  ghost predicate Ties(es: seq<Event>, a: Address, id: IpId, other: IpId) {
    id != other && IsShortest(Run(EMPTY, es).ips, a, id) && IsShortest(Run(EMPTY, es).ips, a, other)
  }

  lemma TieOfTwo(one: RawBlock, two: RawBlock)
    requires one.first == two.first == 0 && Last(one) == 0 && Last(two) == 1
    ensures Ties([Naming(0, one), Naming(1, two)], 0, 1, 2)
  {
    var c := Next(EMPTY, Naming(0, one));
    RunOfTwo(EMPTY, Naming(0, one), Naming(1, two));
    FirstStored(one);
    SecondStored(c, IpRow(one, Some(1), 0), two);
    BothShortest(Next(c, Naming(1, two)).ips, 0, 1, 2, IpRow(one, Some(1), 0), IpRow(two, Some(c.nextIsp), 0));
  }

  /** Whois naming 0.0.0.0/32 for address 0, and then 0.0.0.0/31 for address 1. */
  function Tying(): seq<Event> {
    [Naming(0, Block(0, 0)), Naming(1, Block(0, 1))]
  }

  lemma TyingProper()
    ensures Proper(Tying())
  {
    MultipleBy(0, 0, Pow2(0));
    MultipleBy(0, 0, Pow2(1));
    assert IsBlock(Block(0, 0)) && IsBlock(Block(0, 1));
  }

  lemma TyingTies()
    ensures Ties(Tying(), 0, 1, 2)
  {
    assert Pow2(0) == 1 && Pow2(1) == 2;
    TieOfTwo(Block(0, 0), Block(0, 1));
  }

  /** The condition is needed: were addresses 0 and 1 looked up by whois, two ranges around address 0 could tie. */
  lemma TieAtZero()
    ensures Proper(Tying()) && Ties(Tying(), 0, 1, 2)
  {
    TyingProper();
    TyingTies();
  }
}
