/** Port ranges of a client configuration, and their expansion into named proxies. */
module PortRanges {
  import opened Bytes
  import opened Decimal
  import opened ProxyNames

  datatype ConfigError =
    | EmptyPort
    | InvalidPort
    | PortOutOfRange
    | InvalidStartPort
    | InvalidEndPort
    | StartAfterEnd
    | InvalidFormat
    | InLocalPort(cause: ConfigError)
    | InRemotePort(cause: ConfigError)
    | CountMismatch

  datatype Result<+T> = Ok(value: T) | Err(error: ConfigError)

  // ---------------------------------------------------------------- strings

  /** `unicode.IsSpace`. */
  predicate IsSpace(c: char) {
    || 0x09 as char <= c <= 0x0D as char || c == ' ' || c == 0x85 as char || c == 0xA0 as char
    || c == 0x1680 as char || 0x2000 as char <= c <= 0x200A as char || c == 0x2028 as char || c == 0x2029 as char
    || c == 0x202F as char || c == 0x205F as char || c == 0x3000 as char
  }

  function TrimSpace(s: string): string
    decreases |s|
  {
    if s == [] then s
    else if IsSpace(s[0]) then TrimSpace(s[1..])
    else if IsSpace(s[|s| - 1]) then TrimSpace(s[..|s| - 1])
    else s
  }

  predicate Blank(s: string) {
    forall i | 0 <= i < |s| :: IsSpace(s[i])
  }

  lemma {:induction false} TrimPadded(before: string, s: string, after: string)
    requires Blank(before) && Blank(after) && s != [] && !IsSpace(s[0]) && !IsSpace(s[|s| - 1])
    ensures TrimSpace(before + s + after) == s
    decreases |before| + |after|
  {
    var t := before + s + after;
    if before != [] {
      assert t[1..] == before[1..] + s + after;
      TrimPadded(before[1..], s, after);
    } else if after != [] {
      assert t[..|t| - 1] == before + s + after[..|after| - 1];
      TrimPadded(before, s, after[..|after| - 1]);
    } else {
      assert t == s;
    }
  }

  /** `strings.Split(s, "-")`. */
  function Split(s: string): (parts: seq<string>)
    ensures parts != []
  {
    if s == [] then [""]
    else
      var parts := Split(s[1..]);
      if s[0] == '-' then [""] + parts else [[s[0]] + parts[0]] + parts[1..]
  }

  function Join(parts: seq<string>): string
    requires parts != []
  {
    if |parts| == 1 then parts[0] else parts[0] + "-" + Join(parts[1..])
  }

  predicate NoDash(s: string) {
    forall i | 0 <= i < |s| :: s[i] != '-'
  }

  lemma {:induction false} SplitJoins(s: string)
    ensures Join(Split(s)) == s
    ensures forall k | 0 <= k < |Split(s)| :: NoDash(Split(s)[k])
  {
    if s != [] {
      SplitJoins(s[1..]);
      var parts := Split(s[1..]);
      if s[0] == '-' {
        assert Split(s)[1..] == parts;
      } else {
        assert Split(s)[1..] == parts[1..];
      }
    }
  }

  lemma {:induction false} JoinSplits(parts: seq<string>)
    requires parts != [] && forall k | 0 <= k < |parts| :: NoDash(parts[k])
    ensures Split(Join(parts)) == parts
    decreases |parts|, |parts[0]|
  {
    var s := Join(parts);
    if parts[0] != [] {
      var shorter := [parts[0][1..]] + parts[1..];
      assert s[1..] == Join(shorter) && shorter[1..] == parts[1..];
      JoinSplits(shorter);
      assert [parts[0][0]] + parts[0][1..] == parts[0] && parts == [parts[0]] + parts[1..];
    } else if |parts| > 1 {
      assert s[1..] == Join(parts[1..]);
      JoinSplits(parts[1..]);
    }
  }

  // ---------------------------------------------------------------- ranges

  const MAX_PORT: int := 65535

  datatype PortRange = PortRange(start: int, end: int)

  predicate InRange(port: int) {
    1 <= port <= MAX_PORT
  }

  function ParsePortRange(text: string): (r: Result<PortRange>)
    ensures r.Ok? ==> 1 <= r.value.start <= r.value.end <= MAX_PORT
  {
    var s := TrimSpace(text);
    if s == "" then Err(EmptyPort)
    else
      var parts := Split(s);
      if |parts| == 1 then OnePort(ParseInt(parts[0]))
      else if |parts| == 2 then TwoPorts(ParseInt(parts[0]), ParseInt(parts[1]))
      else Err(InvalidFormat)
  }

  function OnePort(port: Option<int>): Result<PortRange> {
    match port
    case None => Err(InvalidPort)
    case Some(p) => if !InRange(p) then Err(PortOutOfRange) else Ok(PortRange(p, p))
  }

  function TwoPorts(start: Option<int>, end: Option<int>): Result<PortRange> {
    if start == None then Err(InvalidStartPort)
    else if end == None then Err(InvalidEndPort)
    else if !InRange(start.value) || !InRange(end.value) then Err(PortOutOfRange)
    else if start.value > end.value then Err(StartAfterEnd)
    else Ok(PortRange(start.value, end.value))
  }

  /** `s` is one port, or two ports in order with a dash between them. */
  ghost predicate Denotes(s: string, r: PortRange) {
    || (ParseInt(s) == Some(r.start) && r.start == r.end)
    || (exists i | 0 <= i < |s| :: s[i] == '-' && ParseInt(s[..i]) == Some(r.start) && ParseInt(s[i + 1..]) == Some(r.end))
  }

  lemma PortHasNoDash(s: string)
    requires ParseInt(s).Some? && ParseInt(s).value >= 1
    ensures NoDash(s)
  {
    ParseNatDigits(s);
    ParseNatDigits(s[1..]);
    if s[0] == '+' {
      assert forall i | 1 <= i < |s| :: s[i] == s[1..][i - 1];
    }
  }

  /** Exactly the ranges with 1 <= start <= end <= 65535 are accepted, in either spelling, with
      space around but not inside. */
  lemma ParsesIff(text: string, r: PortRange)
    ensures ParsePortRange(text) == Ok(r)
            <==> Denotes(TrimSpace(text), r) && 1 <= r.start <= r.end <= MAX_PORT
  {
    var s := TrimSpace(text);
    if ParsePortRange(text) == Ok(r) {
      ParsedDenotes(s, r);
    }
    if Denotes(s, r) && 1 <= r.start <= r.end <= MAX_PORT {
      DenotesParsed(s, r);
    }
  }

  lemma ParsedDenotes(s: string, r: PortRange)
    requires |Split(s)| == 1 ==> OnePort(ParseInt(Split(s)[0])) == Ok(r)
    requires |Split(s)| == 2 ==> TwoPorts(ParseInt(Split(s)[0]), ParseInt(Split(s)[1])) == Ok(r)
    requires |Split(s)| <= 2
    ensures Denotes(s, r)
  {
    var parts := Split(s);
    SplitJoins(s);
    if |parts| == 2 {
      var i := |parts[0]|;
      assert s == parts[0] + "-" + parts[1];
      assert s[i] == '-' && s[..i] == parts[0] && s[i + 1..] == parts[1];
    }
  }

  lemma DenotesParsed(s: string, r: PortRange)
    requires Denotes(s, r) && 1 <= r.start <= r.end <= MAX_PORT
    ensures (Split(s) == [s] && OnePort(ParseInt(s)) == Ok(r))
            || (|Split(s)| == 2 && TwoPorts(ParseInt(Split(s)[0]), ParseInt(Split(s)[1])) == Ok(r))
  {
    if ParseInt(s) == Some(r.start) && r.start == r.end {
      PortHasNoDash(s);
      JoinSplits([s]);
    } else {
      var i :| 0 <= i < |s| && s[i] == '-' && ParseInt(s[..i]) == Some(r.start) && ParseInt(s[i + 1..]) == Some(r.end);
      SplitAt(s, i, r.start, r.end);
    }
  }

  lemma SplitAt(s: string, i: nat, start: int, end: int)
    requires i < |s| && s[i] == '-' && ParseInt(s[..i]) == Some(start) && ParseInt(s[i + 1..]) == Some(end)
    requires start >= 1 && end >= 1
    ensures Split(s) == [s[..i], s[i + 1..]]
  {
    PortHasNoDash(s[..i]);
    PortHasNoDash(s[i + 1..]);
    var parts := [s[..i], s[i + 1..]];
    assert parts[1..] == [s[i + 1..]];
    assert s == s[..i] + "-" + s[i + 1..] == Join(parts);
    JoinSplits(parts);
  }

  /** Why a text without a dash is rejected, in the order of the checks. */
  lemma OnePortRead(text: string)
    requires NoDash(TrimSpace(text))
    ensures var s := TrimSpace(text);
            ParsePortRange(text) ==
              if s == "" then Err(EmptyPort)
              else if ParseInt(s) == None then Err(InvalidPort)
              else if ParseInt(s).value < 1 || ParseInt(s).value > 65535 then Err(PortOutOfRange)
              else Ok(PortRange(ParseInt(s).value, ParseInt(s).value))
  {
    JoinSplits([TrimSpace(text)]);
  }

  /** Why a text with one dash is rejected, in the order of the checks. */
  lemma TwoPortsRead(text: string, a: string, b: string)
    requires TrimSpace(text) == a + "-" + b && NoDash(a) && NoDash(b)
    ensures ParsePortRange(text) ==
              if ParseInt(a) == None then Err(InvalidStartPort)
              else if ParseInt(b) == None then Err(InvalidEndPort)
              else if ParseInt(a).value < 1 || ParseInt(a).value > 65535 || ParseInt(b).value < 1 || ParseInt(b).value > 65535
                then Err(PortOutOfRange)
              else if ParseInt(a).value > ParseInt(b).value then Err(StartAfterEnd)
              else Ok(PortRange(ParseInt(a).value, ParseInt(b).value))
  {
    SplitInTwo(a, b);
  }

  lemma SplitInTwo(a: string, b: string)
    requires NoDash(a) && NoDash(b)
    ensures Split(a + "-" + b) == [a, b]
  {
    assert [a, b][1..] == [b];
    JoinSplits([a, b]);
  }

  /** A text with more dashes is no range. */
  lemma MoreDashesRejected(text: string, i: nat, j: nat)
    requires i < j < |TrimSpace(text)| && TrimSpace(text)[i] == '-' && TrimSpace(text)[j] == '-'
    ensures ParsePortRange(text) == Err(InvalidFormat)
  {
    var s := TrimSpace(text);
    ManyParts(s, i, j);
  }

  lemma ManyParts(s: string, i: nat, j: nat)
    requires i < j < |s| && s[i] == '-' && s[j] == '-'
    ensures |Split(s)| > 2
  {
    SplitJoins(s);
    if |Split(s)| <= 2 {
      FewDashes(Split(s));
    }
  }

  lemma FewDashes(parts: seq<string>)
    requires 1 <= |parts| <= 2 && forall k | 0 <= k < |parts| :: NoDash(parts[k])
    ensures forall i, j | 0 <= i < j < |Join(parts)| :: Join(parts)[i] != '-' || Join(parts)[j] != '-'
  {
    var s := Join(parts);
    if |parts| == 2 {
      assert parts[1..] == [parts[1]] && Join(parts[1..]) == parts[1];
      assert s == parts[0] + "-" + parts[1];
      assert forall i | 0 <= i < |s| && i != |parts[0]| :: s[i] != '-';
    }
  }

  /** The spelling of a range in a configuration file. */
  function Spell(r: PortRange): string
    requires 1 <= r.start && 1 <= r.end
  {
    if r.start == r.end then Digits(r.start) else Digits(r.start) + "-" + Digits(r.end)
  }

  /** Every valid range can be written, with any space around it, and is read back. */
  lemma ParseOfSpell(before: string, r: PortRange, after: string)
    requires 1 <= r.start <= r.end <= MAX_PORT && Blank(before) && Blank(after)
    ensures ParsePortRange(before + Spell(r) + after) == Ok(r)
  {
    var s, a, b := Spell(r), Digits(r.start), Digits(r.end);
    DigitsAreDigits(r.start);
    DigitsAreDigits(r.end);
    ParseOfFormat(r.start);
    ParseOfFormat(r.end);
    TrimPadded(before, s, after);
    if r.start != r.end {
      assert s[|a|] == '-' && s[..|a|] == a && s[|a| + 1..] == b;
    }
    ParsesIff(before + s + after, r);
  }

  function Count(r: PortRange): int {
    r.end - r.start + 1
  }

  method Ports(r: PortRange) returns (ports: seq<int>)
    requires r.start <= r.end + 1
    ensures |ports| == Count(r) && forall i | 0 <= i < |ports| :: ports[i] == r.start + i
  {
    ports := [];
    var p := r.start;
    while p <= r.end
      invariant r.start <= p <= r.end + 1
      invariant |ports| == p - r.start && forall i | 0 <= i < |ports| :: ports[i] == r.start + i
    {
      ports := ports + [p];
      p := p + 1;
    }
  }

  // ---------------------------------------------------------------- expansion

  datatype ProxyConfig = ProxyConfig(name: string, kind: string, localAddr: string, localPort: string, remotePort: string)

  /** The two ranges of a configuration, or why it is rejected. */
  function Ranges(p: ProxyConfig): (r: Result<(PortRange, PortRange)>)
    ensures r.Ok? ==> ParsePortRange(p.localPort) == Ok(r.value.0) && ParsePortRange(p.remotePort) == Ok(r.value.1)
    ensures r.Ok? ==> Count(r.value.0) == Count(r.value.1) >= 1
  {
    match ParsePortRange(p.localPort)
    case Err(e) => Err(InLocalPort(e))
    case Ok(local) =>
      match ParsePortRange(p.remotePort)
      case Err(e) => Err(InRemotePort(e))
      case Ok(remote) =>
        if Count(local) != Count(remote) then Err(CountMismatch) else Ok((local, remote))
  }

  /** How many proxies `p` stands for. */
  function Size(p: ProxyConfig): (n: nat)
    requires Ranges(p).Ok?
    ensures n >= 1
  {
    Count(Ranges(p).value.0)
  }

  /** The i-th proxy that `p` stands for. */
  function ProxyAt(p: ProxyConfig, i: nat): ExpandedProxy
    requires Ranges(p).Ok? && i < Size(p)
  {
    var (local, remote) := Ranges(p).value;
    ExpandedProxy(NameOf(Family(p.name, Size(p)), i), p.kind, p.localAddr, local.start + i, remote.start + i)
  }

  function Expansion(p: ProxyConfig): (eps: seq<ExpandedProxy>)
    requires Ranges(p).Ok?
    ensures |eps| == Size(p)
  {
    seq(Size(p), i requires 0 <= i < Size(p) => ProxyAt(p, i))
  }

  method Expand(p: ProxyConfig) returns (r: Result<seq<ExpandedProxy>>)
    ensures match Ranges(p)
            case Err(e) => r == Err(e)
            case Ok(_) => r == Ok(Expansion(p))
    ensures r.Ok? <==> Acceptable(p)
  {
    AcceptedIff(p);
    var localRange := ParsePortRange(p.localPort);
    if localRange.Err? {
      return Err(InLocalPort(localRange.error));
    }
    var remoteRange := ParsePortRange(p.remotePort);
    if remoteRange.Err? {
      return Err(InRemotePort(remoteRange.error));
    }
    if Count(localRange.value) != Count(remoteRange.value) {
      return Err(CountMismatch);
    }
    var localPorts := Ports(localRange.value);
    var remotePorts := Ports(remoteRange.value);
    var proxies := [];
    for i := 0 to |localPorts|
      invariant |proxies| == i && forall k | 0 <= k < i :: proxies[k] == ProxyAt(p, k)
    {
      var name := p.name;
      if |localPorts| > 1 {
        name := p.name + "_" + Digits(i);
      }
      proxies := proxies + [ExpandedProxy(name, p.kind, p.localAddr, localPorts[i], remotePorts[i])];
    }
    assert proxies == Expansion(p);
    r := Ok(proxies);
  }

  ghost predicate Valid(r: PortRange) {
    1 <= r.start <= r.end <= 65535
  }

  /** The two port texts denote valid ranges of one length. */
  ghost predicate Acceptable(p: ProxyConfig) {
    exists l, r | Denotes(TrimSpace(p.localPort), l) && Denotes(TrimSpace(p.remotePort), r) ::
      Valid(l) && Valid(r) && l.end - l.start == r.end - r.start
  }

  /** A configuration is accepted if and only if its two texts denote valid ranges of one length;
      otherwise the error is that of the first check that fails. */
  lemma AcceptedIff(p: ProxyConfig)
    ensures Ranges(p).Ok? <==> Acceptable(p)
    ensures var l, r := ParsePortRange(p.localPort), ParsePortRange(p.remotePort);
            && (l.Err? ==> Ranges(p) == Err(InLocalPort(l.error)))
            && (l.Ok? && r.Err? ==> Ranges(p) == Err(InRemotePort(r.error)))
            && (l.Ok? && r.Ok? && l.value.end - l.value.start != r.value.end - r.value.start ==> Ranges(p) == Err(CountMismatch))
  {
    if Ranges(p).Ok? {
      var (l, r) := Ranges(p).value;
      ParsesIff(p.localPort, l);
      ParsesIff(p.remotePort, r);
      assert Valid(l) && Valid(r);
    }
    forall l, r | Denotes(TrimSpace(p.localPort), l) && Denotes(TrimSpace(p.remotePort), r)
                  && Valid(l) && Valid(r) && l.end - l.start == r.end - r.start
      ensures Ranges(p) == Ok((l, r))
    {
      RangesAre(p, l, r);
    }
  }

  lemma RangesAre(p: ProxyConfig, l: PortRange, r: PortRange)
    requires Denotes(TrimSpace(p.localPort), l) && Denotes(TrimSpace(p.remotePort), r)
    requires Valid(l) && Valid(r) && l.end - l.start == r.end - r.start
    ensures Ranges(p) == Ok((l, r))
  {
    ParsesIff(p.localPort, l);
    ParsesIff(p.remotePort, r);
  }

  /** What an accepted configuration expands to, entry by entry. */
  lemma ExpandsTo(p: ProxyConfig, l: PortRange, r: PortRange)
    requires Denotes(TrimSpace(p.localPort), l) && Denotes(TrimSpace(p.remotePort), r)
    requires Valid(l) && Valid(r) && l.end - l.start == r.end - r.start
    ensures Ranges(p).Ok? && |Expansion(p)| == l.end - l.start + 1
    ensures forall i: nat | i < |Expansion(p)| ::
      Expansion(p)[i] == ExpandedProxy(if l.start < l.end then p.name + "_" + Digits(i) else p.name,
                                       p.kind, p.localAddr, l.start + i, r.start + i)
  {
    RangesAre(p, l, r);
  }

  /** Whatever is accepted maps every local port, in order, to the remote port at the same
      offset, all within 1..65535. */
  lemma ExpansionPorts(p: ProxyConfig, i: nat)
    requires Ranges(p).Ok? && i < Size(p)
    ensures var (local, remote) := Ranges(p).value; var e := Expansion(p)[i];
            && local.start <= e.localPort <= local.end && remote.start <= e.remotePort <= remote.end
            && e.localPort - local.start == e.remotePort - remote.start == i
            && InRange(e.localPort) && InRange(e.remotePort)
  {
    ParsesIff(p.localPort, Ranges(p).value.0);
    ParsesIff(p.remotePort, Ranges(p).value.1);
  }

  // ---------------------------------------------------------------- the client's map

  ghost predicate AllOk(cfgs: seq<ProxyConfig>) {
    forall i | 0 <= i < |cfgs| :: Ranges(cfgs[i]).Ok?
  }

  /** All the proxies that the configurations stand for, in order. */
  ghost function All(cfgs: seq<ProxyConfig>): seq<ExpandedProxy>
    requires AllOk(cfgs)
  {
    if cfgs == [] then []
    else All(cfgs[..|cfgs| - 1]) + Expansion(cfgs[|cfgs| - 1])
  }

  /** The name and the number of proxies of each configuration. */
  ghost function Families(cfgs: seq<ProxyConfig>): seq<Family>
    requires AllOk(cfgs)
  {
    seq(|cfgs|, i requires 0 <= i < |cfgs| => FamilyOf(cfgs[i]))
  }

  function FamilyOf(p: ProxyConfig): (f: Family)
    requires Ranges(p).Ok?
    ensures f.count >= 1
  {
    Family(p.name, Size(p))
  }

  lemma FamiliesSnoc(cfgs: seq<ProxyConfig>)
    requires AllOk(cfgs) && cfgs != []
    ensures Families(cfgs) == Families(cfgs[..|cfgs| - 1]) + [FamilyOf(cfgs[|cfgs| - 1])]
  {
  }

  lemma {:induction false} NamesOfAll(cfgs: seq<ProxyConfig>)
    requires AllOk(cfgs)
    ensures NamesOf(All(cfgs)) == AllNames(Families(cfgs))
  {
    if cfgs != [] {
      var before, p := cfgs[..|cfgs| - 1], cfgs[|cfgs| - 1];
      NamesOfAll(before);
      NamesOfExpansion(p);
      NamesOfAppend(All(before), Expansion(p));
      FamiliesSnoc(cfgs);
      AllNamesAppend(Families(before), FamilyOf(p));
    }
  }

  lemma NamesOfExpansion(p: ProxyConfig)
    requires Ranges(p).Ok?
    ensures NamesOf(Expansion(p)) == Names(FamilyOf(p))
  {
  }

  lemma OneMoreConfig(cfgs: seq<ProxyConfig>, i: nat)
    requires i < |cfgs| && AllOk(cfgs[..i]) && Ranges(cfgs[i]).Ok?
    ensures AllOk(cfgs[..i + 1]) && All(cfgs[..i + 1]) == All(cfgs[..i]) + Expansion(cfgs[i])
  {
    assert cfgs[..i + 1][..i] == cfgs[..i];
  }

  lemma AllAcceptable(cfgs: seq<ProxyConfig>)
    ensures AllOk(cfgs) <==> forall i | 0 <= i < |cfgs| :: Acceptable(cfgs[i])
  {
    forall i | 0 <= i < |cfgs|
      ensures Ranges(cfgs[i]).Ok? <==> Acceptable(cfgs[i])
    {
      AcceptedIff(cfgs[i]);
    }
  }

  /** The loops of `New` over the configured proxies; `bad` is the configuration that is to
      blame for an error, the first one that is rejected. */
  method New(cfgs: seq<ProxyConfig>) returns (r: Result<map<string, ExpandedProxy>>, ghost bad: nat)
    ensures r.Ok? <==> AllOk(cfgs)
    ensures r.Ok? <==> forall i | 0 <= i < |cfgs| :: Acceptable(cfgs[i])
    ensures r.Ok? ==> r.value == Stored(All(cfgs))
    ensures r.Err? ==> bad < |cfgs| && AllOk(cfgs[..bad]) && Ranges(cfgs[bad]) == Err(r.error)
  {
    AllAcceptable(cfgs);
    var proxies := map[];
    bad := 0;
    for i := 0 to |cfgs|
      invariant AllOk(cfgs[..i]) && proxies == Stored(All(cfgs[..i]))
    {
      var expanded := Expand(cfgs[i]);
      if expanded.Err? {
        return Err(expanded.error), i;
      }
      OneMoreConfig(cfgs, i);
      proxies := StoreAll(proxies, All(cfgs[..i]), expanded.value);
    }
    assert cfgs[..|cfgs|] == cfgs;
    r := Ok(proxies);
  }

  /** The client keeps a proxy for every configured pair of ports if and only if no two
      configurations clash. */
  lemma NoneLostIff(cfgs: seq<ProxyConfig>)
    requires AllOk(cfgs)
    ensures |Stored(All(cfgs))| == |All(cfgs)| <==> NoClash(Families(cfgs))
    ensures NoClash(Families(cfgs)) ==> KeepsAll(Stored(All(cfgs)), All(cfgs))
  {
    NamesOfAll(cfgs);
    DistinctIff(Families(cfgs));
    StoredIff(All(cfgs));
  }
}
