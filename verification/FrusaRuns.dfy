/** Runs of a client of the allocator: what it holds at any time is separate, large enough and aligned. */
module FrusaRuns {
  import opened Arithmetic
  import opened FrusaList
  import opened FrusaMem
  import opened FrusaBatch
  import opened FrusaReclaim
  import F = Frusa

  datatype Grant = Grant(p: nat, layout: Layout)

  datatype Request = Take(layout: Layout) | Give(i: nat) | Sweep

  /** A grant is a live entry of the right slab, or a region of the fallback allocator's. */
  ghost predicate GrantOk(mem: Mem, home: Home, regions: Regions, kinds: Kinds, count: nat, g: Grant, e: Entry) {
    if Small(g.layout, count) then
      && Live(mem, home, e) && home[e.h] == Order(g.layout) && g.p == AddressOf(mem[e.h], e.bit)
      && g.layout.size <= mem[e.h].entrySz && (g.layout.alignLog <= 21 ==> g.p % Pow2(g.layout.alignLog) == 0)
    else
      && g.p in regions && g.p in kinds && kinds[g.p] == Client
      && regions[g.p] == Region(g.layout.size, Pow2(g.layout.alignLog))
  }

  ghost predicate Different(count: nat, g: Grant, d: Entry, f: Grant, e: Entry) {
    && (Small(g.layout, count) && Small(f.layout, count) ==> d != e)
    && (!Small(g.layout, count) && !Small(f.layout, count) ==> g.p != f.p)
  }

  ghost predicate HoldsEntry(count: nat, held: seq<Grant>, es: seq<Entry>, e: Entry)
    requires |es| == |held|
  {
    exists i :: 0 <= i < |held| && Small(held[i].layout, count) && es[i] == e
  }

  ghost predicate HoldsRegion(count: nat, held: seq<Grant>, r: nat) {
    exists i :: 0 <= i < |held| && !Small(held[i].layout, count) && held[i].p == r
  }

  /** The client holds exactly what is allocated, each thing once. */
  ghost predicate Held(
    mem: Mem, home: Home, regions: Regions, kinds: Kinds, count: nat, held: seq<Grant>, es: seq<Entry>) {
    && |es| == |held|
    && (forall i | 0 <= i < |held| :: GrantOk(mem, home, regions, kinds, count, held[i], es[i]))
    && (forall i, j | 0 <= i < j < |held| :: Different(count, held[i], es[i], held[j], es[j]))
    && (forall e | Live(mem, home, e) :: HoldsEntry(count, held, es, e))
    && (forall r | r in kinds && kinds[r] == Client :: HoldsRegion(count, held, r))
  }

  /** What the client may rely on. */
  ghost predicate Separate(count: nat, held: seq<Grant>) {
    && (forall i, j | 0 <= i < j < |held| :: Apart(held[i].p, held[i].layout.size, held[j].p, held[j].layout.size))
    && (forall i | 0 <= i < |held| ::
          held[i].layout.alignLog <= 21 || !Small(held[i].layout, count) ==>
            held[i].p % Pow2(held[i].layout.alignLog) == 0)
  }

  /** What is held never overlaps, and is aligned as asked. */
  lemma HeldSeparate(
    mem: Mem, meta: Slab, slabs: seq<Slab>, regions: Regions, kinds: Kinds, pages: seq<nat>, used: set<nat>,
    chains: seq<seq<nat>>, home: Home, table: set<nat>, count: nat, held: seq<Grant>, es: seq<Entry>)
    requires Inv(mem, meta, slabs, regions, kinds, pages, used, chains, home, table)
    requires Held(mem, home, regions, kinds, count, held, es)
    ensures Separate(count, held)
  {
    forall i, j | 0 <= i < j < |held| ensures Apart(held[i].p, held[i].layout.size, held[j].p, held[j].layout.size) {
      PairSeparate(mem, slabs, regions, kinds, chains, home, count, held[i], es[i], held[j], es[j]);
    }
    forall i | 0 <= i < |held| && (held[i].layout.alignLog <= 21 || !Small(held[i].layout, count))
      ensures held[i].p % Pow2(held[i].layout.alignLog) == 0
    {
      assert GrantOk(mem, home, regions, kinds, count, held[i], es[i]);
    }
  }

  lemma PairSeparate(
    mem: Mem, slabs: seq<Slab>, regions: Regions, kinds: Kinds, chains: seq<seq<nat>>, home: Home,
    count: nat, g: Grant, d: Entry, f: Grant, e: Entry)
    requires RegionsOk(regions, kinds) && DataOk(mem, slabs, chains, home, regions, kinds)
    requires GrantOk(mem, home, regions, kinds, count, g, d) && GrantOk(mem, home, regions, kinds, count, f, e)
    requires Different(count, g, d, f, e)
    ensures Apart(g.p, g.layout.size, f.p, f.layout.size)
  {
    hide DataOk;
    match (Small(g.layout, count), Small(f.layout, count)) {
      case (true, true) => LiveApart(mem, slabs, chains, home, regions, kinds, d, e);
      case (true, false) => LiveApartFromOthers(mem, slabs, chains, home, regions, kinds, d, f.p);
      case (false, true) => LiveApartFromOthers(mem, slabs, chains, home, regions, kinds, e, g.p);
      case (false, false) => assert RegionsApart(regions, g.p, f.p);
    }
  }

  // ---------------------------------------------------------------------------------------
  // What each operation does to the grants
  // ---------------------------------------------------------------------------------------

  /** Entry `e`, live before, is live at the same address and in the same slab. */
  ghost predicate Stays(mem: Mem, home: Home, mem': Mem, home': Home, e: Entry)
    requires Live(mem, home, e)
  {
    && Live(mem', home', e) && home'[e.h] == home[e.h]
    && mem'[e.h].data == mem[e.h].data && mem'[e.h].entrySz == mem[e.h].entrySz
  }

  lemma GrantStays(
    mem: Mem, home: Home, regions: Regions, kinds: Kinds, mem': Mem, home': Home, regions': Regions, kinds': Kinds,
    count: nat, g: Grant, e: Entry)
    requires GrantOk(mem, home, regions, kinds, count, g, e)
    requires Small(g.layout, count) ==> Stays(mem, home, mem', home', e)
    requires !Small(g.layout, count) ==>
               g.p in regions' && g.p in kinds' && regions'[g.p] == regions[g.p] && kinds'[g.p] == kinds[g.p]
    ensures GrantOk(mem', home', regions', kinds', count, g, e)
  {
  }

  /** The same allocations. */
  ghost predicate SameGrants(
    mem: Mem, home: Home, regions: Regions, kinds: Kinds, mem': Mem, home': Home, regions': Regions, kinds': Kinds) {
    && (forall e | Live(mem, home, e) :: Stays(mem, home, mem', home', e))
    && (forall e | Live(mem', home', e) :: Live(mem, home, e))
    && ClientsKept(regions, kinds, regions', kinds')
  }

  lemma HeldStays(
    mem: Mem, home: Home, regions: Regions, kinds: Kinds, mem': Mem, home': Home, regions': Regions, kinds': Kinds,
    count: nat, held: seq<Grant>, es: seq<Entry>)
    requires Held(mem, home, regions, kinds, count, held, es)
    requires SameGrants(mem, home, regions, kinds, mem', home', regions', kinds')
    ensures Held(mem', home', regions', kinds', count, held, es)
  {
    forall i | 0 <= i < |held| ensures GrantOk(mem', home', regions', kinds', count, held[i], es[i]) {
      GrantStays(mem, home, regions, kinds, mem', home', regions', kinds', count, held[i], es[i]);
    }
  }

  lemma UndisturbedGrants(
    mem: Mem, home: Home, regions: Regions, kinds: Kinds, mem': Mem, home': Home, regions': Regions, kinds': Kinds)
    requires Undisturbed(mem, home, regions, kinds, mem', home', regions', kinds') && forall h | h in home :: h in mem
    ensures SameGrants(mem, home, regions, kinds, mem', home', regions', kinds')
  {
    forall e | Live(mem, home, e) ensures Stays(mem, home, mem', home', e) {
    }
  }

  lemma ReclaimedGrants(
    mem: Mem, home: Home, regions: Regions, kinds: Kinds, mem': Mem, home': Home, regions': Regions, kinds': Kinds)
    requires Reclaimed(mem, home, regions, kinds, mem', home', regions', kinds') && forall h | h in home :: h in mem
    ensures SameGrants(mem, home, regions, kinds, mem', home', regions', kinds')
  {
    forall e | Live(mem, home, e) ensures Stays(mem, home, mem', home', e) {
    }
  }

  /** Appending a grant. */
  lemma OneMore(
    mem: Mem, home: Home, regions: Regions, kinds: Kinds, mem': Mem, home': Home, regions': Regions, kinds': Kinds,
    count: nat, held: seq<Grant>, es: seq<Entry>, g: Grant, e: Entry)
    requires Held(mem, home, regions, kinds, count, held, es) && GrantOk(mem', home', regions', kinds', count, g, e)
    requires forall d | Live(mem, home, d) :: Stays(mem, home, mem', home', d)
    requires forall r | r in regions && r in kinds && kinds[r] == Client ::
               r in regions' && r in kinds' && regions'[r] == regions[r] && kinds'[r] == Client
    requires Small(g.layout, count) ==> !Live(mem, home, e)
    requires !Small(g.layout, count) ==> g.p !in regions
    requires forall d | Live(mem', home', d) :: Live(mem, home, d) || (Small(g.layout, count) && d == e)
    requires forall r | r in kinds' && kinds'[r] == Client ::
               (r in kinds && kinds[r] == Client) || (!Small(g.layout, count) && r == g.p)
    ensures Held(mem', home', regions', kinds', count, held + [g], es + [e])
  {
    var held', es' := held + [g], es + [e];
    forall i | 0 <= i < |held| ensures GrantOk(mem', home', regions', kinds', count, held[i], es[i]) {
      GrantStays(mem, home, regions, kinds, mem', home', regions', kinds', count, held[i], es[i]);
    }
    forall i, j | 0 <= i < j < |held'| ensures Different(count, held'[i], es'[i], held'[j], es'[j]) {
      assert j < |held| ==> Different(count, held[i], es[i], held[j], es[j]);
      assert GrantOk(mem, home, regions, kinds, count, held[i], es[i]);
    }
    forall d | Live(mem', home', d) ensures HoldsEntry(count, held', es', d) {
      if Live(mem, home, d) {
        var i :| 0 <= i < |held| && Small(held[i].layout, count) && es[i] == d;
        assert Small(held'[i].layout, count) && es'[i] == d;
      } else {
        assert Small(held'[|held|].layout, count) && es'[|held|] == d;
      }
    }
    forall r | r in kinds' && kinds'[r] == Client ensures HoldsRegion(count, held', r) {
      if r in kinds && kinds[r] == Client {
        var i :| 0 <= i < |held| && !Small(held[i].layout, count) && held[i].p == r;
        assert !Small(held'[i].layout, count) && held'[i].p == r;
      } else {
        assert !Small(held'[|held|].layout, count) && held'[|held|].p == r;
      }
    }
  }

  function Without<T>(s: seq<T>, i: nat): seq<T>
    requires i < |s|
  {
    s[..i] + s[i + 1..]
  }

  /** Where element `k` of the rest was before. */
  function From(i: nat, k: nat): nat {
    if k < i then k else k + 1
  }

  /** Grant `g` of entry `e` is gone, every other stays. */
  ghost predicate GivenBack(
    mem: Mem, home: Home, regions: Regions, kinds: Kinds, mem': Mem, home': Home, regions': Regions, kinds': Kinds,
    count: nat, g: Grant, e: Entry)
  {
    var small := Small(g.layout, count);
    && (forall d | Live(mem, home, d) && !(small && d == e) :: Stays(mem, home, mem', home', d))
    && (forall d | Live(mem', home', d) :: Live(mem, home, d) && !(small && d == e))
    && (forall r | r in regions && r in kinds && kinds[r] == Client && (small || r != g.p) ::
          r in regions' && r in kinds' && regions'[r] == regions[r] && kinds'[r] == Client)
    && (forall r | r in kinds' && kinds'[r] == Client :: r in kinds && kinds[r] == Client && (small || r != g.p))
  }

  lemma OtherStays(
    mem: Mem, home: Home, regions: Regions, kinds: Kinds, mem': Mem, home': Home, regions': Regions, kinds': Kinds,
    count: nat, g: Grant, e: Entry, f: Grant, d: Entry)
    requires GivenBack(mem, home, regions, kinds, mem', home', regions', kinds', count, g, e)
    requires GrantOk(mem, home, regions, kinds, count, f, d) && Different(count, g, e, f, d)
    ensures GrantOk(mem', home', regions', kinds', count, f, d)
  {
    GrantStays(mem, home, regions, kinds, mem', home', regions', kinds', count, f, d);
  }

  lemma EntryLeft(count: nat, held: seq<Grant>, es: seq<Entry>, i: nat, d: Entry)
    requires |es| == |held| && i < |held| && HoldsEntry(count, held, es, d)
    requires !(Small(held[i].layout, count) && d == es[i])
    ensures HoldsEntry(count, Without(held, i), Without(es, i), d)
  {
    var j :| 0 <= j < |held| && Small(held[j].layout, count) && es[j] == d;
    var k := if j < i then j else j - 1;
    assert Without(held, i)[k] == held[j] && Without(es, i)[k] == es[j];
  }

  lemma RegionLeft(count: nat, held: seq<Grant>, i: nat, r: nat)
    requires i < |held| && HoldsRegion(count, held, r) && (Small(held[i].layout, count) || r != held[i].p)
    ensures HoldsRegion(count, Without(held, i), r)
  {
    var j :| 0 <= j < |held| && !Small(held[j].layout, count) && held[j].p == r;
    var k := if j < i then j else j - 1;
    assert Without(held, i)[k] == held[j];
  }

  lemma DifferentSwap(count: nat, g: Grant, d: Entry, f: Grant, e: Entry)
    requires Different(count, g, d, f, e)
    ensures Different(count, f, e, g, d)
  {
  }

  /** Giving grant `i` back. */
  lemma OneLess(
    mem: Mem, home: Home, regions: Regions, kinds: Kinds, mem': Mem, home': Home, regions': Regions, kinds': Kinds,
    count: nat, held: seq<Grant>, es: seq<Entry>, i: nat)
    requires i < |held| && |es| == |held| && Held(mem, home, regions, kinds, count, held, es)
    requires GivenBack(mem, home, regions, kinds, mem', home', regions', kinds', count, held[i], es[i])
    ensures Held(mem', home', regions', kinds', count, Without(held, i), Without(es, i))
  {
    hide GrantOk;
    hide Different;
    hide HoldsEntry;
    hide HoldsRegion;
    hide Small;
    var held', es' := Without(held, i), Without(es, i);
    forall k | 0 <= k < |held'| ensures GrantOk(mem', home', regions', kinds', count, held'[k], es'[k]) {
      var j := From(i, k);
      assert held'[k] == held[j] && es'[k] == es[j];
      if j < i {
        DifferentSwap(count, held[j], es[j], held[i], es[i]);
      }
      OtherStays(mem, home, regions, kinds, mem', home', regions', kinds', count, held[i], es[i], held[j], es[j]);
    }
    forall k, l | 0 <= k < l < |held'| ensures Different(count, held'[k], es'[k], held'[l], es'[l]) {
      assert Different(count, held[From(i, k)], es[From(i, k)], held[From(i, l)], es[From(i, l)]);
    }
    forall d | Live(mem', home', d) ensures HoldsEntry(count, held', es', d) {
      EntryLeft(count, held, es, i, d);
    }
    forall r | r in kinds' && kinds'[r] == Client ensures HoldsRegion(count, held', r) {
      RegionLeft(count, held, i, r);
    }
  }

  // ---------------------------------------------------------------------------------------
  // Runs
  // ---------------------------------------------------------------------------------------

  /** The client holds exactly what the allocator has given out. */
  ghost predicate Serves(f: F.Frusa, held: seq<Grant>, es: seq<Entry>)
    reads f
  {
    f.Whole() && Held(f.mem, f.home, f.regions, f.kinds, f.count, held, es)
  }

  lemma HomeKnown(
    mem: Mem, meta: Slab, slabs: seq<Slab>, regions: Regions, kinds: Kinds, pages: seq<nat>, used: set<nat>,
    chains: seq<seq<nat>>, home: Home, table: set<nat>)
    requires Inv(mem, meta, slabs, regions, kinds, pages, used, chains, home, table)
    ensures (forall h | h in home :: h in mem) && kinds.Keys == regions.Keys
  {
    HomeInMem(mem, slabs, chains, home, regions, kinds);
  }

  /** What the client has, and how often the fallback allocator has refused so far. */
  datatype Moment = Moment(held: seq<Grant>, refusals: nat)

  /** One request that is served. A request for memory gets some, unless the fallback refuses. */
  ghost predicate Round(m: Moment, request: Request, m': Moment) {
    match request
    case Take(layout) =>
      || (exists p :: p > 0 && m' == Moment(m.held + [Grant(p, layout)], m.refusals))
      || m' == Moment(m.held, m.refusals + 1)
    case Give(i) => i < |m.held| && m' == Moment(Without(m.held, i), m.refusals)
    case Sweep => m' == m
  }

  /** What no client may ask: nothing, or to give back what it does not hold. */
  predicate Invalid(held: seq<Grant>, request: Request) {
    match request
    case Take(layout) => layout.size == 0
    case Give(i) => i >= |held|
    case Sweep => false
  }

  /** The request is the first that needs the slabs, and the fallback refuses the page for them: a panic. */
  ghost predicate SetUpRefused(f: F.Frusa, m: Moment, request: Request)
    reads f
  {
    && f.slabs == [] && f.refusals == m.refusals + 1
    && (request.Take? ==> Small(request.layout, f.count)) && !request.Give?
  }

  method DoTake(f: F.Frusa, held: seq<Grant>, ghost es: seq<Entry>, layout: Layout)
    returns (ok: bool, held': seq<Grant>, ghost es': seq<Entry>)
    requires Serves(f, held, es) && layout.size > 0
    modifies f
    ensures if ok then
              Serves(f, held', es') && Round(Moment(held, old(f.refusals)), Take(layout), Moment(held', f.refusals))
            else SetUpRefused(f, Moment(held, old(f.refusals)), Take(layout))
  {
    hide Inv;
    hide Held;
    hide Undisturbed;
    HomeKnown(f.mem, f.meta, f.slabs, f.regions, f.kinds, f.pages, f.used, f.chains, f.home, f.table);
    var r, e := f.Alloc(layout);
    if r.Panicked? {
      return false, held, es;
    }
    if r.p == 0 {
      UndisturbedGrants(old(f.mem), old(f.home), old(f.regions), old(f.kinds), f.mem, f.home, f.regions, f.kinds);
      HeldStays(old(f.mem), old(f.home), old(f.regions), old(f.kinds), f.mem, f.home, f.regions, f.kinds, f.count,
                held, es);
      return true, held, es;
    }
    HomeKnown(f.mem, f.meta, f.slabs, f.regions, f.kinds, f.pages, f.used, f.chains, f.home, f.table);
    OneMore(old(f.mem), old(f.home), old(f.regions), old(f.kinds), f.mem, f.home, f.regions, f.kinds, f.count,
            held, es, Grant(r.p, layout), e);
    return true, held + [Grant(r.p, layout)], es + [e];
  }

  method DoGive(f: F.Frusa, held: seq<Grant>, ghost es: seq<Entry>, i: nat)
    requires Serves(f, held, es) && i < |held| && |es| == |held|
    modifies f
    ensures Serves(f, Without(held, i), Without(es, i)) && f.refusals == old(f.refusals)
  {
    hide Inv;
    assert GrantOk(f.mem, f.home, f.regions, f.kinds, f.count, held[i], es[i]);
    hide Held;
    HomeKnown(f.mem, f.meta, f.slabs, f.regions, f.kinds, f.pages, f.used, f.chains, f.home, f.table);
    f.Dealloc(held[i].p, held[i].layout, es[i]);
    OneLess(old(f.mem), old(f.home), old(f.regions), old(f.kinds), f.mem, f.home, f.regions, f.kinds, f.count, held,
            es, i);
  }

  method DoSweep(f: F.Frusa, held: seq<Grant>, ghost es: seq<Entry>) returns (ok: bool)
    requires Serves(f, held, es)
    modifies f
    ensures if ok then Serves(f, held, es) && f.refusals == old(f.refusals)
            else SetUpRefused(f, Moment(held, old(f.refusals)), Sweep)
  {
    hide Inv;
    hide Held;
    hide Reclaimed;
    HomeKnown(f.mem, f.meta, f.slabs, f.regions, f.kinds, f.pages, f.used, f.chains, f.home, f.table);
    ok := f.Reclaim();
    if ok {
      if old(|f.slabs|) == f.count {
        ReclaimedGrants(old(f.mem), old(f.home), old(f.regions), old(f.kinds), f.mem, f.home, f.regions, f.kinds);
      }
      HeldStays(old(f.mem), old(f.home), old(f.regions), old(f.kinds), f.mem, f.home, f.regions, f.kinds, f.count,
                held, es);
    }
  }

  /** The moments before, between and after the requests: each served in turn, and at each no overlap. */
  ghost predicate Trace(count: nat, trace: seq<Moment>, requests: seq<Request>) {
    && |trace| == |requests| + 1 && trace[0] == Moment([], 0)
    && (forall k | 0 <= k < |requests| :: Round(trace[k], requests[k], trace[k + 1]))
    && (forall k | 0 <= k < |trace| :: Separate(count, trace[k].held))
  }

  /**
   Any run of requests, on an allocator of any size and with a fallback allocator that may refuse
   at any time: each is served in turn, a request for memory with memory unless the fallback
   refuses. At every moment no two grants overlap, each is as large as asked and aligned as asked
   up to 2M; at the end the client holds exactly what is allocated. The run stops early only at a
   request that no client may make, or when the set-up on first use is refused.
   */
  method RunClient(count: nat, losses: nat, requests: seq<Request>)
    returns (done: nat, f: F.Frusa, held: seq<Grant>, ghost es: seq<Entry>, ghost trace: seq<Moment>)
    requires 1 <= count <= 27
    ensures done <= |requests| && f.count == count && Trace(count, trace, requests[..done]) && trace[done].held == held
    ensures if done == |requests| then Serves(f, held, es) && f.refusals == trace[done].refusals
            else Invalid(held, requests[done]) || SetUpRefused(f, trace[done], requests[done])
  {
    hide Inv;
    hide Held;
    hide Separate;
    hide Round;
    f := new F.Frusa(count, losses);
    held, es, trace := [], [], [Moment([], 0)];
    HeldNothing(f.mem, f.regions, f.kinds, count);
    Separated(f, held, es);
    done := 0;
    while done < |requests|
      invariant done <= |requests| && Serves(f, held, es) && f.count == count && fresh(f)
      invariant Trace(count, trace, requests[..done]) && trace[done] == Moment(held, f.refusals)
    {
      ghost var m := Moment(held, f.refusals);
      if Invalid(held, requests[done]) {
        return;
      }
      var ok := true;
      match requests[done] {
        case Take(layout) =>
          var held';
          ok, held', es := DoTake(f, held, es, layout);
          if ok {
            held := held';
          }
        case Give(i) =>
          SameLength(f.mem, f.home, f.regions, f.kinds, count, held, es);
          DoGive(f, held, es, i);
          held, es := Without(held, i), Without(es, i);
          assert Round(m, requests[done], Moment(held, f.refusals)) by { Served(m, requests[done], held); }
        case Sweep =>
          ok := DoSweep(f, held, es);
          if ok { Served(m, requests[done], held); }
      }
      if !ok {
        return;
      }
      Separated(f, held, es);
      Longer(count, trace, requests, done, Moment(held, f.refusals));
      trace := trace + [Moment(held, f.refusals)];
      done := done + 1;
    }
    assert requests[..done] == requests;
  }

  lemma Separated(f: F.Frusa, held: seq<Grant>, es: seq<Entry>)
    requires Serves(f, held, es)
    ensures Separate(f.count, held)
  {
    hide Inv;
    HeldSeparate(f.mem, f.meta, f.slabs, f.regions, f.kinds, f.pages, f.used, f.chains, f.home, f.table, f.count,
                 held, es);
  }

  lemma Served(m: Moment, request: Request, held: seq<Grant>)
    requires match request
             case Take(_) => false
             case Give(i) => i < |m.held| && held == Without(m.held, i)
             case Sweep => held == m.held
    ensures Round(m, request, Moment(held, m.refusals))
  {
  }

  lemma Longer(count: nat, trace: seq<Moment>, requests: seq<Request>, n: nat, m: Moment)
    requires n < |requests| && Trace(count, trace, requests[..n]) && Round(trace[n], requests[n], m)
    requires Separate(count, m.held)
    ensures Trace(count, trace + [m], requests[..n + 1])
  {
    hide Round;
    hide Separate;
    var longer, served := trace + [m], requests[..n + 1];
    forall k | 0 <= k < |served| ensures Round(longer[k], served[k], longer[k + 1]) {
      if k < n { assert requests[..n][k] == served[k] && longer[k + 1] == trace[k + 1]; }
    }
  }

  lemma HeldNothing(mem: Mem, regions: Regions, kinds: Kinds, count: nat)
    requires kinds == map[]
    ensures Held(mem, map[], regions, kinds, count, [], [])
  {
  }

  lemma SameLength(mem: Mem, home: Home, regions: Regions, kinds: Kinds, count: nat, held: seq<Grant>, es: seq<Entry>)
    requires Held(mem, home, regions, kinds, count, held, es)
    ensures |es| == |held|
  {
  }
}
