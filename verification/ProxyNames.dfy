/** Names of expanded proxies, and the map in which the client keeps them. */
module ProxyNames {
  import opened Decimal

  datatype ExpandedProxy = ExpandedProxy(name: string, kind: string, localAddr: string, localPort: int, remotePort: int)

  /** The base name of a configuration and the number of its proxies. */
  datatype Family = Family(base: string, count: nat)

  function NameOf(f: Family, i: nat): string {
    if f.count > 1 then f.base + "_" + Digits(i) else f.base
  }

  function Names(f: Family): seq<string> {
    seq(f.count, i requires 0 <= i < f.count => NameOf(f, i))
  }

  /** The decimal number after the last underscore can be read off a name. */
  lemma SuffixInjective(a: string, k: nat, b: string, l: nat)
    requires a + "_" + Digits(k) == b + "_" + Digits(l)
    ensures a == b && k == l
  {
    SuffixNotLonger(a, k, b, l);
    SuffixNotLonger(b, l, a, k);
    assert a == (a + "_" + Digits(k))[..|a|] == b;
    assert Digits(k) == (a + "_" + Digits(k))[|a| + 1..] == Digits(l);
    DigitsInjective(k, l);
  }

  lemma SuffixNotLonger(a: string, k: nat, b: string, l: nat)
    requires a + "_" + Digits(k) == b + "_" + Digits(l)
    ensures |a| >= |b|
  {
    var s := a + "_" + Digits(k);
    DigitsAreDigits(k);
    assert s[|b|] == '_';
    assert forall i | |a| < i < |s| :: s[i] == Digits(k)[i - |a| - 1];
  }

  // ---------------------------------------------------------------- distinct names

  ghost predicate Distinct(ns: seq<string>) {
    forall i, j | 0 <= i < j < |ns| :: ns[i] != ns[j]
  }

  ghost predicate Disjoint(ms: seq<string>, ns: seq<string>) {
    forall i, j | 0 <= i < |ms| && 0 <= j < |ns| :: ms[i] != ns[j]
  }

  lemma OwnNamesDistinct(f: Family)
    ensures Distinct(Names(f))
  {
    forall i, j | 0 <= i < j < f.count
      ensures Names(f)[i] != Names(f)[j]
    {
      if Names(f)[i] == Names(f)[j] {
        SuffixInjective(f.base, i, f.base, j);
      }
    }
  }

  /** Two configurations clash if they have one name and are both ranges or both single ports,
      or if one is a single port whose name is among the expanded names of the other. */
  predicate Clash(f: Family, g: Family) {
    || (f.base == g.base && (f.count > 1 <==> g.count > 1))
    || (f.count == 1 && g.count > 1 && exists k | 0 <= k < g.count :: f.base == g.base + "_" + Digits(k))
    || (g.count == 1 && f.count > 1 && exists k | 0 <= k < f.count :: g.base == f.base + "_" + Digits(k))
  }

  /** Clashing is exactly having some expanded name in common. */
  lemma ClashIff(f: Family, g: Family)
    requires f.count >= 1 && g.count >= 1
    ensures Disjoint(Names(f), Names(g)) <==> !Clash(f, g)
  {
    if Clash(f, g) {
      if f.base == g.base && (f.count > 1 <==> g.count > 1) {
        assert Names(f)[0] == Names(g)[0];
      } else if f.count == 1 {
        var k :| 0 <= k < g.count && f.base == g.base + "_" + Digits(k);
        assert Names(f)[0] == Names(g)[k];
      } else {
        var k :| 0 <= k < f.count && g.base == f.base + "_" + Digits(k);
        assert Names(f)[k] == Names(g)[0];
      }
    }
    forall i, j | 0 <= i < f.count && 0 <= j < g.count && Names(f)[i] == Names(g)[j]
      ensures Clash(f, g)
    {
      if f.count > 1 && g.count > 1 {
        SuffixInjective(f.base, i, g.base, j);
      }
    }
  }

  ghost predicate NoClash(fs: seq<Family>) {
    forall i, j | 0 <= i < j < |fs| :: !Clash(fs[i], fs[j])
  }

  function AllNames(fs: seq<Family>): seq<string> {
    if fs == [] then [] else AllNames(fs[..|fs| - 1]) + Names(fs[|fs| - 1])
  }

  lemma AllNamesAppend(fs: seq<Family>, f: Family)
    ensures AllNames(fs + [f]) == AllNames(fs) + Names(f)
  {
    assert (fs + [f])[..|fs|] == fs;
  }

  lemma DistinctAppend(ms: seq<string>, ns: seq<string>)
    ensures Distinct(ms + ns) <==> Distinct(ms) && Distinct(ns) && Disjoint(ms, ns)
  {
    var all := ms + ns;
    assert forall i | 0 <= i < |ms| :: all[i] == ms[i];
    assert forall j | 0 <= j < |ns| :: ns[j] == all[|ms| + j];
    if Distinct(all) {
      assert Disjoint(ms, ns);
    }
  }

  lemma DisjointAppend(ms: seq<string>, ns: seq<string>, xs: seq<string>)
    ensures Disjoint(ms + ns, xs) <==> Disjoint(ms, xs) && Disjoint(ns, xs)
  {
    var all := ms + ns;
    assert forall i | 0 <= i < |ms| :: ms[i] == all[i];
    assert forall j | 0 <= j < |ns| :: ns[j] == all[|ms| + j];
  }

  lemma {:induction false} DisjointIff(fs: seq<Family>, g: Family)
    requires g.count >= 1 && forall i | 0 <= i < |fs| :: fs[i].count >= 1
    ensures Disjoint(AllNames(fs), Names(g)) <==> forall i | 0 <= i < |fs| :: !Clash(fs[i], g)
  {
    if fs != [] {
      var before, f := fs[..|fs| - 1], fs[|fs| - 1];
      DisjointIff(before, g);
      DisjointAppend(AllNames(before), Names(f), Names(g));
      ClashIff(f, g);
      assert forall i | 0 <= i < |before| :: before[i] == fs[i];
    }
  }

  /** Expanded names are all distinct exactly when no two configurations clash. */
  lemma {:induction false} DistinctIff(fs: seq<Family>)
    requires forall i | 0 <= i < |fs| :: fs[i].count >= 1
    ensures Distinct(AllNames(fs)) <==> NoClash(fs)
  {
    if fs != [] {
      var before, f := fs[..|fs| - 1], fs[|fs| - 1];
      DistinctIff(before);
      OwnNamesDistinct(f);
      DistinctAppend(AllNames(before), Names(f));
      DisjointIff(before, f);
      assert forall i | 0 <= i < |before| :: before[i] == fs[i];
    }
  }

  // ---------------------------------------------------------------- the map

  function NamesOf(eps: seq<ExpandedProxy>): seq<string> {
    seq(|eps|, i requires 0 <= i < |eps| => eps[i].name)
  }

  lemma NamesOfAppend(xs: seq<ExpandedProxy>, ys: seq<ExpandedProxy>)
    ensures NamesOf(xs + ys) == NamesOf(xs) + NamesOf(ys)
  {
  }

  /** Entries stored one after the other, each under its name. */
  function Stored(eps: seq<ExpandedProxy>): map<string, ExpandedProxy> {
    if eps == [] then map[]
    else Stored(eps[..|eps| - 1])[eps[|eps| - 1].name := eps[|eps| - 1]]
  }

  method StoreAll(m: map<string, ExpandedProxy>, ghost before: seq<ExpandedProxy>, eps: seq<ExpandedProxy>)
    returns (m': map<string, ExpandedProxy>)
    requires m == Stored(before)
    ensures m' == Stored(before + eps)
  {
    m' := m;
    assert before + eps[..0] == before;
    for k := 0 to |eps|
      invariant m' == Stored(before + eps[..k])
    {
      m' := m'[eps[k].name := eps[k]];
      StoredAppend(before + eps[..k], eps[k]);
      assert before + eps[..k] + [eps[k]] == before + eps[..k + 1];
    }
    assert before + eps[..|eps|] == before + eps;
  }

  lemma StoredAppend(eps: seq<ExpandedProxy>, e: ExpandedProxy)
    ensures Stored(eps + [e]) == Stored(eps)[e.name := e]
  {
    assert (eps + [e])[..|eps|] == eps;
  }

  ghost predicate KeepsAll(m: map<string, ExpandedProxy>, eps: seq<ExpandedProxy>) {
    forall e | e in eps :: e.name in m && m[e.name] == e
  }

  lemma {:induction false} StoredKeys(eps: seq<ExpandedProxy>)
    ensures forall n :: n in Stored(eps) <==> n in NamesOf(eps)
  {
    if eps != [] {
      var before, e := eps[..|eps| - 1], eps[|eps| - 1];
      StoredKeys(before);
      assert NamesOf(eps) == NamesOf(before) + [e.name];
    }
  }

  /** All the entries are kept exactly if their names are distinct. */
  lemma {:induction false} StoredIff(eps: seq<ExpandedProxy>)
    ensures |Stored(eps)| <= |eps| && (|Stored(eps)| == |eps| <==> Distinct(NamesOf(eps)))
    ensures Distinct(NamesOf(eps)) ==> KeepsAll(Stored(eps), eps)
  {
    if eps != [] {
      var before, e := eps[..|eps| - 1], eps[|eps| - 1];
      StoredIff(before);
      StoredKeys(before);
      assert NamesOf(eps) == NamesOf(before) + [e.name];
      DistinctAppend(NamesOf(before), [e.name]);
      DisjointOne(NamesOf(before), e.name);
      StoredSize(Stored(before), e);
      if Distinct(NamesOf(eps)) {
        KeepsOneMore(Stored(before), before, e);
        assert before + [e] == eps;
      }
    }
  }

  lemma DisjointOne(ns: seq<string>, n: string)
    ensures Disjoint(ns, [n]) <==> n !in ns
    ensures Distinct([n])
  {
    assert n == [n][0];
    if n in ns {
      var i :| 0 <= i < |ns| && ns[i] == n;
      assert ns[i] == [n][0];
    }
  }

  lemma KeepsOneMore(m: map<string, ExpandedProxy>, eps: seq<ExpandedProxy>, e: ExpandedProxy)
    requires KeepsAll(m, eps) && e.name !in NamesOf(eps)
    ensures KeepsAll(m[e.name := e], eps + [e])
  {
    forall x | x in eps
      ensures x.name != e.name
    {
      var i :| 0 <= i < |eps| && eps[i] == x;
      assert NamesOf(eps)[i] == x.name;
    }
  }

  lemma StoredSize(m: map<string, ExpandedProxy>, e: ExpandedProxy)
    ensures |m[e.name := e]| == if e.name in m then |m| else |m| + 1
  {
    var m' := m[e.name := e];
    assert m'.Keys == m.Keys + {e.name};
    assert |m'.Keys| == |m'| && |m.Keys| == |m|;
  }
}
