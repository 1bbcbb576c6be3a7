/** The mentor's usage statistics: `fetchStats` seeds one entry per component
    id, counts the requests of each known component and, among them, the
    approved ones, and then takes the entries in key order; the cards add
    the counters up. */
module ComponentStats {
  import opened Values
  import opened Seqs
  import opened Records
  import opened Lifecycle

  /** An entry of `statsMap`. */
  datatype Usage = Usage(name: string, requests: nat, approved: nat)

  /** The entry `statsMap[comp.id]` starts with. */
  function Seed(c: Component): Usage {
    Usage(c.name, 0, 0)
  }

  /** The ids of `cs` in order of first occurrence: the order in which
      `Object.values` lists the entries. */
  function KeysOf(cs: seq<Component>): (ks: seq<string>)
    ensures forall i, j :: 0 <= i < j < |ks| ==> ks[i] != ks[j]
    ensures forall k :: k in ks <==> exists i :: 0 <= i < |cs| && cs[i].id == k
  {
    if cs == [] then []
    else
      var front := cs[..|cs| - 1];
      var ks := KeysOf(front);
      assert forall i :: 0 <= i < |front| ==> front[i] == cs[i];
      if cs[|cs| - 1].id in ks then ks else ks + [cs[|cs| - 1].id]
  }

  /** The component ids, as a set. */
  function IdsOf(cs: seq<Component>): set<string> {
    set c | c in cs :: c.id
  }

  /** The entries of a list of keys, as a set. */
  function SetOf(ks: seq<string>): set<string> {
    set k | k in ks
  }

  /** A request that counts towards the entry of `k`: for `requests` every
      request for `k`, for `approved` only the approved ones. */
  function CountedFor(k: string, approvedOnly: bool): Request -> bool {
    (r: Request) => r.componentId == k && (!approvedOnly || r.status == Approved)
  }

  /** A request whose component is one of `ids`. */
  function KnownRequest(ids: set<string>, approvedOnly: bool): Request -> bool {
    (r: Request) => r.componentId in ids && (!approvedOnly || r.status == Approved)
  }

  /** The entries for the keys `ks`, in that order, named from the seeded
      map and counted over `rs`. */
  function StatsOf(ks: seq<string>, seed: map<string, Usage>, rs: seq<Request>): (stats: seq<Usage>)
    requires forall k :: k in ks ==> k in seed
    ensures |stats| == |ks|
    ensures forall i :: 0 <= i < |ks| ==>
      stats[i] == Usage(seed[ks[i]].name, Count(rs, CountedFor(ks[i], false)), Count(rs, CountedFor(ks[i], true)))
  {
    if ks == [] then []
    else
      var head := Usage(seed[ks[0]].name, Count(rs, CountedFor(ks[0], false)), Count(rs, CountedFor(ks[0], true)));
      [head] + StatsOf(ks[1..], seed, rs)
  }

  /** Every key of `KeysOf(cs)` is seeded. */
  lemma KeysSeeded(cs: seq<Component>)
    ensures forall k :: k in KeysOf(cs) <==> k in IndexOf(cs, ComponentKey, Seed)
  {
    forall k {
      IndexOfLookup(cs, ComponentKey, Seed, k);
    }
  }

  /** `Object.values(statsMap)` after both loops. */
  function UsageStats(cs: seq<Component>, rs: seq<Request>): seq<Usage> {
    KeysSeeded(cs);
    StatsOf(KeysOf(cs), IndexOf(cs, ComponentKey, Seed), rs)
  }

  /** The "Total Requests" card. */
  function TotalRequests(stats: seq<Usage>): nat {
    if stats == [] then 0 else stats[0].requests + TotalRequests(stats[1..])
  }

  /** The "Approved Requests" card. */
  function TotalApproved(stats: seq<Usage>): nat {
    if stats == [] then 0 else stats[0].approved + TotalApproved(stats[1..])
  }

  /** The first `forEach`: one entry per component id, seeded at zero, and
      the order in which the ids were first inserted. */
  method SeedEntries(cs: seq<Component>) returns (m: map<string, Usage>, keys: seq<string>)
    ensures m == IndexOf(cs, ComponentKey, Seed)
    ensures keys == KeysOf(cs)
  {
    m, keys := map[], [];
    var i := 0;
    while i < |cs|
      invariant 0 <= i <= |cs|
      invariant m == IndexOf(cs[..i], ComponentKey, Seed)
      invariant keys == KeysOf(cs[..i])
    {
      assert cs[..i + 1][..i] == cs[..i];
      if cs[i].id !in keys {
        keys := keys + [cs[i].id];
      }
      m := m[cs[i].id := Seed(cs[i])];
      i := i + 1;
    }
    assert cs[..i] == cs;
  }

  /** The entry of `k` after the requests `rs` were counted into `seed`. */
  function Counted(seed: map<string, Usage>, rs: seq<Request>, k: string): Usage
    requires k in seed
  {
    Usage(seed[k].name, Count(rs, CountedFor(k, false)), Count(rs, CountedFor(k, true)))
  }

  /** The `+= 1` updates one request makes to the entry of `k`. */
  function Bump(u: Usage, r: Request, k: string): Usage {
    if r.componentId != k then u
    else u.(requests := u.requests + 1, approved := if r.status == Approved then u.approved + 1 else u.approved)
  }

  /** One pass of the second `forEach` body: only an entry that exists is
      updated. */
  function Step(m: map<string, Usage>, r: Request): map<string, Usage> {
    if r.componentId in m then m[r.componentId := Bump(m[r.componentId], r, r.componentId)] else m
  }

  /** `m` holds the entries after the first `j` requests were counted. */
  predicate CountedUpTo(m: map<string, Usage>, seed: map<string, Usage>, rs: seq<Request>, j: nat)
    requires j <= |rs|
  {
    m.Keys == seed.Keys && forall k :: k in m ==> m[k] == Counted(seed, rs[..j], k)
  }

  /** Counting one request more bumps each entry as the loop body does. */
  lemma CountOneMore(seed: map<string, Usage>, rs: seq<Request>, j: nat, m: map<string, Usage>)
    requires j < |rs| && CountedUpTo(m, seed, rs, j)
    ensures CountedUpTo(Step(m, rs[j]), seed, rs, j + 1)
  {
    forall k | k in Step(m, rs[j]) ensures Step(m, rs[j])[k] == Counted(seed, rs[..j + 1], k) {
      CountSnoc(rs, j, CountedFor(k, false));
      CountSnoc(rs, j, CountedFor(k, true));
      assert Step(m, rs[j])[k] == Bump(m[k], rs[j], k);
    }
  }

  /** The second `forEach`: each request whose component has an entry adds 1
      to its `requests`, and 1 to its `approved` when it is approved. */
  method CountRequests(seed: map<string, Usage>, rs: seq<Request>) returns (m: map<string, Usage>)
    requires forall k :: k in seed ==> seed[k].requests == 0 && seed[k].approved == 0
    ensures m.Keys == seed.Keys
    ensures forall k :: k in m ==> m[k] == Counted(seed, rs, k)
  {
    m := seed;
    var j := 0;
    NothingCounted(seed, rs);
    while j < |rs|
      invariant 0 <= j <= |rs|
      invariant CountedUpTo(m, seed, rs, j)
    {
      CountOneMore(seed, rs, j, m);
      var r := rs[j];
      if r.componentId in m {
        m := m[r.componentId := Bump(m[r.componentId], r, r.componentId)];
      }
      j := j + 1;
    }
    assert rs[..j] == rs;
  }

  /** Before the second loop the seeded map is the count over no requests. */
  lemma NothingCounted(seed: map<string, Usage>, rs: seq<Request>)
    requires forall k :: k in seed ==> seed[k].requests == 0 && seed[k].approved == 0
    ensures CountedUpTo(seed, seed, rs, 0)
  {
    assert rs[..0] == [];
  }

  /** The statistics `fetchStats` computes from what the two queries
      returned. */
  method Aggregate(requestRows: Option<seq<Request>>, componentRows: Option<seq<Component>>) returns (stats: seq<Usage>)
    ensures stats == UsageStats(RowsOf(componentRows), RowsOf(requestRows))
  {
    var cs, rs := RowsOf(componentRows), RowsOf(requestRows);
    var seed, keys := SeedEntries(cs);
    KeysSeeded(cs);
    SeedsAreZero(cs);
    var m := CountRequests(seed, rs);
    stats := seq(|keys|, n requires 0 <= n < |keys| => m[keys[n]]);
  }

  /** Every seeded entry starts at zero. */
  lemma {:induction false} SeedsAreZero(cs: seq<Component>)
    ensures forall k :: k in IndexOf(cs, ComponentKey, Seed) ==>
      IndexOf(cs, ComponentKey, Seed)[k].requests == 0 && IndexOf(cs, ComponentKey, Seed)[k].approved == 0
  {
    if cs != [] {
      SeedsAreZero(cs[..|cs| - 1]);
    }
  }

  /** The keys are exactly the component ids. */
  lemma KeysAreIds(cs: seq<Component>)
    ensures SetOf(KeysOf(cs)) == IdsOf(cs)
  {
    forall k ensures k in SetOf(KeysOf(cs)) <==> k in IdsOf(cs) {
      if k in IdsOf(cs) {
        var c :| c in cs && c.id == k;
        var i :| 0 <= i < |cs| && cs[i] == c;
        assert cs[i].id == k;
      }
    }
  }

  /** Every component id has one entry, whatever the requests. */
  lemma {:induction false} OneEntryPerId(cs: seq<Component>, rs: seq<Request>)
    ensures |UsageStats(cs, rs)| == |IdsOf(cs)|
  {
    KeysAreIds(cs);
    DistinctSize(KeysOf(cs));
  }

  /** A list without repeats has as many entries as its set. */
  lemma {:induction false} DistinctSize(ks: seq<string>)
    requires forall i, j :: 0 <= i < j < |ks| ==> ks[i] != ks[j]
    ensures |SetOf(ks)| == |ks|
  {
    if ks != [] {
      var rest := ks[1..];
      assert forall i, j :: 0 <= i < j < |rest| ==> rest[i] != rest[j] by {
        forall i, j | 0 <= i < j < |rest| ensures rest[i] != rest[j] {
          assert rest[i] == ks[i + 1] && rest[j] == ks[j + 1];
        }
      }
      DistinctSize(rest);
      assert ks[0] !in rest;
      assert SetOf(ks) == {ks[0]} + SetOf(rest);
    }
  }

  /** Before any request is counted every entry reads zero. */
  lemma EntriesStartAtZero(cs: seq<Component>, i: nat)
    requires i < |UsageStats(cs, [])|
    ensures UsageStats(cs, [])[i].requests == 0 && UsageStats(cs, [])[i].approved == 0
  {
    FilterSingleton<Request>(Request("", "", "", 0, "", "", "", None), CountedFor("", false));
  }

  /** Counting one more request adds 1 to the entry of its component, and to
      that entry's approved count exactly when it is approved; the other
      entries keep their counts. */
  lemma AddRequest(cs: seq<Component>, rs: seq<Request>, r: Request, i: nat)
    requires i < |UsageStats(cs, rs)|
    ensures var before, after := UsageStats(cs, rs)[i], UsageStats(cs, rs + [r])[i];
      after.name == before.name &&
      after.requests == before.requests + (if r.componentId == KeysOf(cs)[i] then 1 else 0) &&
      after.approved == before.approved + (if r.componentId == KeysOf(cs)[i] && r.status == Approved then 1 else 0)
  {
    var k := KeysOf(cs)[i];
    CountConcat(rs, [r], CountedFor(k, false));
    CountConcat(rs, [r], CountedFor(k, true));
    FilterSingleton(r, CountedFor(k, false));
    FilterSingleton(r, CountedFor(k, true));
  }

  /** A request for a component that is not in the catalog changes no
      entry. */
  lemma AddUnknownRequest(cs: seq<Component>, rs: seq<Request>, r: Request)
    requires r.componentId !in IdsOf(cs)
    ensures UsageStats(cs, rs + [r]) == UsageStats(cs, rs)
  {
    var before, after := UsageStats(cs, rs), UsageStats(cs, rs + [r]);
    KeysAreIds(cs);
    forall n | 0 <= n < |after| ensures after[n] == before[n] {
      AddRequest(cs, rs, r, n);
      assert KeysOf(cs)[n] in SetOf(KeysOf(cs));
    }
  }

  /** In every entry the approved count is at most the request count. */
  lemma ApprovedWithinRequests(cs: seq<Component>, rs: seq<Request>, i: nat)
    requires i < |UsageStats(cs, rs)|
    ensures UsageStats(cs, rs)[i].approved <= UsageStats(cs, rs)[i].requests
  {
    var k := KeysOf(cs)[i];
    CountMono(rs, CountedFor(k, true), CountedFor(k, false));
  }

  /** The sum over keys of the per-key counts. */
  function Tally(ks: seq<string>, rs: seq<Request>, approvedOnly: bool): nat {
    if ks == [] then 0 else Count(rs, CountedFor(ks[0], approvedOnly)) + Tally(ks[1..], rs, approvedOnly)
  }

  lemma {:induction false} SumOfStats(ks: seq<string>, seed: map<string, Usage>, rs: seq<Request>)
    requires forall k :: k in ks ==> k in seed
    ensures TotalRequests(StatsOf(ks, seed, rs)) == Tally(ks, rs, false)
    ensures TotalApproved(StatsOf(ks, seed, rs)) == Tally(ks, rs, true)
  {
    if ks != [] {
      SumOfStats(ks[1..], seed, rs);
      assert StatsOf(ks, seed, rs)[1..] == StatsOf(ks[1..], seed, rs);
    }
  }

  /** Over keys without repeats, the per-key counts add up to the count of
      requests whose component is one of the keys. */
  lemma {:induction false} TallyOfDistinct(ks: seq<string>, rs: seq<Request>, approvedOnly: bool)
    requires forall i, j :: 0 <= i < j < |ks| ==> ks[i] != ks[j]
    ensures Tally(ks, rs, approvedOnly) == Count(rs, KnownRequest(SetOf(ks), approvedOnly))
  {
    if ks == [] {
      assert SetOf(ks) == {};
      FilterNone(rs, KnownRequest(SetOf(ks), approvedOnly));
    } else {
      var rest := ks[1..];
      assert forall i, j :: 0 <= i < j < |rest| ==> rest[i] != rest[j] by {
        forall i, j | 0 <= i < j < |rest| ensures rest[i] != rest[j] {
          assert rest[i] == ks[i + 1] && rest[j] == ks[j + 1];
        }
      }
      TallyOfDistinct(rest, rs, approvedOnly);
      assert ks[0] !in rest;
      assert SetOf(ks) == {ks[0]} + SetOf(rest);
      CountDisjoint(rs, CountedFor(ks[0], approvedOnly), KnownRequest(SetOf(rest), approvedOnly),
                    KnownRequest(SetOf(ks), approvedOnly));
    }
  }

  /** The two cards: "Total Requests" counts exactly the requests whose
      component is in the catalog, and "Approved Requests" exactly the
      approved ones among them; requests for unknown components are
      ignored. */
  lemma CardTotals(cs: seq<Component>, rs: seq<Request>)
    ensures TotalRequests(UsageStats(cs, rs)) == Count(rs, KnownRequest(IdsOf(cs), false))
    ensures TotalApproved(UsageStats(cs, rs)) == Count(rs, KnownRequest(IdsOf(cs), true))
    ensures TotalApproved(UsageStats(cs, rs)) <= TotalRequests(UsageStats(cs, rs))
  {
    var ks := KeysOf(cs);
    KeysSeeded(cs);
    SumOfStats(ks, IndexOf(cs, ComponentKey, Seed), rs);
    TallyOfDistinct(ks, rs, false);
    TallyOfDistinct(ks, rs, true);
    KeysAreIds(cs);
    CountMono(rs, KnownRequest(IdsOf(cs), true), KnownRequest(IdsOf(cs), false));
  }
}
