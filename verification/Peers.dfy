/** The peers an agent can reach (`app/cluster/config.py`): a comma-separated setting read into an
    ordered dict, where a later entry replaces an earlier one's URL but not its place. */
module Peers {
  import opened Texts

  datatype PeerSpec = PeerSpec(name: Text, url: Text)

  datatype Config = Config(namespace: Text, clusterDomain: Text, scheme: Text, port: int)

  const HTTPS: Text := Ascii("https")
  const AUTHORITY: Text := Ascii("://")

  function Host(name: Text, config: Config): Text {
    name + [DOT] + config.namespace + [DOT] + config.clusterDomain
  }

  /** `service_dns_url`: the scheme's own port is left out. */
  function ServiceDnsUrl(name: Text, config: Config): Text {
    config.scheme + AUTHORITY + Host(name, config)
    + if config.port == (if config.scheme == HTTPS then 443 else 80) then [] else [COLON] + IntText(config.port)
  }

  /** The host is the service's name, then its namespace, then the cluster's domain, as DNS labels; the
      port is named when it is not the scheme's own. */
  lemma ServiceUrlParts(name: Text, config: Config)
    requires DOT !in name && DOT !in config.namespace
    ensures Split(Host(name, config), DOT) == [name, config.namespace] + Split(config.clusterDomain, DOT)
    ensures ServiceDnsUrl(name, config) == config.scheme + AUTHORITY + Host(name, config)
       <==> config.port == (if config.scheme == HTTPS then 443 else 80)
    ensures config.port != (if config.scheme == HTTPS then 443 else 80)
            ==> ServiceDnsUrl(name, config)
                == config.scheme + AUTHORITY + Host(name, config) + ([COLON] + IntText(config.port))
  {
    HostLabels(name, config);
    hide Host, IntText;
    var base := config.scheme + AUTHORITY + Host(name, config);
    if config.port != (if config.scheme == HTTPS then 443 else 80) {
      assert |ServiceDnsUrl(name, config)| == |base| + |[COLON] + IntText(config.port)|;
    } else {
      assert ServiceDnsUrl(name, config) == base + [];
    }
  }

  lemma HostLabels(name: Text, config: Config)
    requires DOT !in name && DOT !in config.namespace
    ensures Split(Host(name, config), DOT) == [name, config.namespace] + Split(config.clusterDomain, DOT)
  {
    hide Split;
    SplitPrefix(name, config.namespace + [DOT] + config.clusterDomain, DOT);
    SplitPrefix(config.namespace, config.clusterDomain, DOT);
    assert Host(name, config) == name + [DOT] + (config.namespace + [DOT] + config.clusterDomain);
    assert [name] + ([config.namespace] + Split(config.clusterDomain, DOT))
        == [name, config.namespace] + Split(config.clusterDomain, DOT);
  }

  lemma ServiceUrlInjective(a: Text, b: Text, config: Config)
    requires ServiceDnsUrl(a, config) == ServiceDnsUrl(b, config)
    ensures a == b
  {
    var before := config.scheme + AUTHORITY;
    var after := [DOT] + config.namespace + [DOT] + config.clusterDomain
                 + if config.port == (if config.scheme == HTTPS then 443 else 80) then [] else [COLON] + IntText(config.port);
    assert ServiceDnsUrl(a, config) == before + a + after;
    assert ServiceDnsUrl(b, config) == before + b + after;
    assert (before + a + after)[|before|..|before| + |a|] == a;
    assert (before + b + after)[|before|..|before| + |b|] == b;
  }

  // --- Reading one entry ---------------------------------------------------------------------------

  /** `t.rstrip("/")`. */
  function DropSlashes(t: Text): (r: Text)
    ensures |r| <= |t| && r == t[..|r|] && (r == [] || r[|r| - 1] != SLASH)
  {
    if t != [] && t[|t| - 1] == SLASH then DropSlashes(t[..|t| - 1]) else t
  }

  lemma KeptSlashes(t: Text)
    requires t == [] || t[|t| - 1] != SLASH
    ensures DropSlashes(t) == t
  {
  }

  /** Only slashes are taken off the end, and all of them. */
  lemma {:induction false} SlashesDropped(t: Text)
    ensures forall i :: |DropSlashes(t)| <= i < |t| ==> t[i] == SLASH
    ensures DropSlashes(t) == [] || DropSlashes(t)[|DropSlashes(t)| - 1] != SLASH
    decreases |t|
  {
    if t != [] && t[|t| - 1] == SLASH { SlashesDropped(t[..|t| - 1]); }
  }

  /** The peer an entry names; None for one that is skipped. */
  function EntryOf(item: Text, config: Config): Option<PeerSpec> {
    var parts := Split(item, EQUALS);
    var name := Strip(parts[0]);
    var explicit := Strip(Join(parts[1..], EQUALS));
    if item == [] || name == [] then None
    else Some(PeerSpec(name, DropSlashes(if explicit != [] then explicit else ServiceDnsUrl(name, config))))
  }

  /** An entry is a name, or a name, "=" and a URL, each without the blanks around it. One without a name is
      skipped; one without a URL is at its service's address; slashes at the end of a URL are dropped. */
  lemma EntryIs(name: Text, url: Text, config: Config)
    requires EQUALS !in name
    ensures EntryOf(name, config)
         == if IsBlank(name) then None else Some(PeerSpec(Strip(name), DropSlashes(ServiceDnsUrl(Strip(name), config))))
    ensures EntryOf(name + [EQUALS] + url, config)
         == if IsBlank(name) then None
            else if IsBlank(url) then Some(PeerSpec(Strip(name), DropSlashes(ServiceDnsUrl(Strip(name), config))))
            else Some(PeerSpec(Strip(name), DropSlashes(Strip(url))))
  {
    hide Strip, IsBlank, ServiceDnsUrl, DropSlashes, Split;
    BlankStrips(name);
    BlankStrips(url);
    BlankStrips([]);
    assert IsBlank([]) by { EmptyBlank(); }
    SplitPrefix(name, url, EQUALS);
    JoinSplit(url, EQUALS);
    assert [name][1..] == [] && ([name] + Split(url, EQUALS))[1..] == Split(url, EQUALS);
  }

  lemma EmptyBlank()
    ensures IsBlank([])
  {
  }

  /** The peers named, with repeats, in order. */
  function Entries(items: seq<Text>, config: Config): seq<PeerSpec> {
    if items == [] then []
    else
      var last := EntryOf(items[|items| - 1], config);
      Entries(items[..|items| - 1], config) + if last.Some? then [last.value] else []
  }

  function Stripped(items: seq<Text>): (r: seq<Text>)
    ensures |r| == |items| && forall i :: 0 <= i < |r| ==> r[i] == Strip(items[i])
  {
    seq(|items|, i requires 0 <= i < |items| => Strip(items[i]))
  }

  function Items(raw: Option<Text>, defaults: seq<Text>): seq<Text> {
    if raw.Or([]) != [] then Stripped(Split(raw.value, COMMA)) else defaults
  }

  /** Entries come in the order of the items, one for each that names a peer. */
  lemma {:induction false} EntriesInOrder(a: seq<Text>, b: seq<Text>, item: Text, config: Config)
    ensures Entries(a + b, config) == Entries(a, config) + Entries(b, config)
    ensures Entries([item], config) == if EntryOf(item, config).Some? then [EntryOf(item, config).value] else []
    decreases |b|
  {
    hide EntryOf;
    assert [item][..0] == [] && Entries([], config) == [];
    if b == [] {
      assert a + b == a;
    } else {
      var n := |b| - 1;
      EntriesInOrder(a, b[..n], item, config);
      assert (a + b)[..|a| + n] == a + b[..n] && (a + b)[|a| + n] == b[n];
    }
  }

  /** The items are what stands between the commas of the setting, or the defaults when there is none. */
  lemma ItemsAre(items: seq<Text>, defaults: seq<Text>)
    requires items != [] && forall t :: t in items ==> COMMA !in t
    ensures Items(None, defaults) == Items(Some([]), defaults) == defaults
    ensures Join(items, COMMA) != [] ==> Items(Some(Join(items, COMMA)), defaults) == Stripped(items)
  {
    SplitJoin(items, COMMA);
  }

  // --- The dict -----------------------------------------------------------------------------------------

  predicate Named(peers: seq<PeerSpec>, name: Text) {
    exists i :: 0 <= i < |peers| && peers[i].name == name
  }

  /** `peers[name] = spec`: in place when the name is known, at the end when it is new. */
  function Put(peers: seq<PeerSpec>, spec: PeerSpec): seq<PeerSpec> {
    if peers == [] then [spec]
    else if peers[0].name == spec.name then [spec] + peers[1..]
    else [peers[0]] + Put(peers[1..], spec)
  }

  predicate UniqueNames(peers: seq<PeerSpec>) {
    forall i, j :: 0 <= i < j < |peers| ==> peers[i].name != peers[j].name
  }

  function FirstIndex(peers: seq<PeerSpec>, name: Text): (i: nat)
    requires Named(peers, name)
    ensures i < |peers| && peers[i].name == name && forall j :: 0 <= j < i ==> peers[j].name != name
  {
    if peers[0].name == name then 0 else 1 + FirstIndex(peers[1..], name)
  }

  function LastUrl(peers: seq<PeerSpec>, name: Text): Text
    requires Named(peers, name)
  {
    if peers[|peers| - 1].name == name then peers[|peers| - 1].url else LastUrl(peers[..|peers| - 1], name)
  }

  /** One peer for each name, in the order of first mention, with the URL last given. */
  ghost predicate Summarizes(peers: seq<PeerSpec>, entries: seq<PeerSpec>) {
    && UniqueNames(peers)
    && (forall name :: Named(peers, name) <==> Named(entries, name))
    && (forall i, j :: 0 <= i < j < |peers| && Named(entries, peers[i].name) && Named(entries, peers[j].name)
          ==> FirstIndex(entries, peers[i].name) < FirstIndex(entries, peers[j].name))
    && (forall i :: 0 <= i < |peers| && Named(entries, peers[i].name) ==> peers[i].url == LastUrl(entries, peers[i].name))
  }

  lemma {:induction false} PutIs(peers: seq<PeerSpec>, spec: PeerSpec)
    ensures if Named(peers, spec.name)
            then Put(peers, spec) == peers[FirstIndex(peers, spec.name) := spec]
            else Put(peers, spec) == peers + [spec]
    decreases |peers|
  {
    if peers != [] && peers[0].name != spec.name {
      PutIs(peers[1..], spec);
      if Named(peers, spec.name) {
        var i :| 0 <= i < |peers| && peers[i].name == spec.name;
        assert peers[1..][i - 1].name == spec.name;
      } else {
        forall i | 0 <= i < |peers[1..]| ensures peers[1..][i].name != spec.name { assert peers[i + 1].name != spec.name; }
      }
    }
  }

  lemma {:induction false} FirstIndexSnoc(entries: seq<PeerSpec>, e: PeerSpec, name: Text)
    ensures Named(entries + [e], name) <==> Named(entries, name) || e.name == name
    ensures Named(entries, name) ==> FirstIndex(entries + [e], name) == FirstIndex(entries, name)
    ensures !Named(entries, name) && e.name == name ==> FirstIndex(entries + [e], name) == |entries|
    ensures Named(entries + [e], name) ==>
              LastUrl(entries + [e], name) == if e.name == name then e.url else LastUrl(entries, name)
  {
    var all := entries + [e];
    if Named(entries, name) {
      var i := FirstIndex(entries, name);
      assert all[i].name == name;
      assert all[FirstIndex(all, name)].name == name;
    }
    if e.name == name { assert all[|entries|].name == name; }
    assert all[..|entries|] == entries;
  }

  lemma ReplaceSummarizes(peers: seq<PeerSpec>, entries: seq<PeerSpec>, e: PeerSpec, k: nat)
    requires Summarizes(peers, entries) && k < |peers| && peers[k].name == e.name
    ensures Summarizes(peers[k := e], entries + [e])
  {
    hide FirstIndex, LastUrl, Named;
    var after, all := peers[k := e], entries + [e];
    forall name ensures Named(after, name) <==> Named(all, name) {
      NamedAt(peers, k);
      FirstIndexSnoc(entries, e, name);
      SameNames(peers, e, k, name);
    }
    forall i | 0 <= i < |peers|
      ensures after[i].name == peers[i].name && Named(entries, peers[i].name) && Named(all, peers[i].name)
      ensures FirstIndex(all, peers[i].name) == FirstIndex(entries, peers[i].name)
      ensures after[i].url == LastUrl(all, peers[i].name)
    {
      NamedAt(peers, i);
      FirstIndexSnoc(entries, e, peers[i].name);
    }
  }

  lemma NamedAt(peers: seq<PeerSpec>, k: nat)
    requires k < |peers|
    ensures Named(peers, peers[k].name)
  {
  }

  lemma SameNames(peers: seq<PeerSpec>, e: PeerSpec, k: nat, name: Text)
    requires k < |peers| && peers[k].name == e.name
    ensures Named(peers[k := e], name) <==> Named(peers, name)
  {
    if i :| 0 <= i < |peers| && peers[i].name == name { assert peers[k := e][i].name == name; }
    var after := peers[k := e];
    if i :| 0 <= i < |after| && after[i].name == name { assert peers[i].name == name; }
  }

  lemma AppendSummarizes(peers: seq<PeerSpec>, entries: seq<PeerSpec>, e: PeerSpec)
    requires Summarizes(peers, entries) && !Named(peers, e.name)
    ensures Summarizes(peers + [e], entries + [e])
  {
    hide FirstIndex, LastUrl, Named;
    var after, all := peers + [e], entries + [e];
    forall name ensures Named(after, name) <==> Named(all, name) {
      FirstIndexSnoc(entries, e, name);
      FirstIndexSnoc(peers, e, name);
    }
    forall i | 0 <= i < |peers|
      ensures after[i] == peers[i] && peers[i].name != e.name && Named(entries, peers[i].name) && Named(all, peers[i].name)
      ensures FirstIndex(all, peers[i].name) == FirstIndex(entries, peers[i].name) < |entries|
      ensures peers[i].url == LastUrl(all, peers[i].name)
    {
      NamedAt(peers, i);
      FirstIndexSnoc(entries, e, peers[i].name);
    }
    FirstIndexSnoc(entries, e, e.name);
  }

  lemma PutSummarizes(peers: seq<PeerSpec>, entries: seq<PeerSpec>, e: PeerSpec)
    requires Summarizes(peers, entries)
    ensures Summarizes(Put(peers, e), entries + [e])
  {
    hide LastUrl, Put, Summarizes;
    PutIs(peers, e);
    if Named(peers, e.name) {
      ReplaceSummarizes(peers, entries, e, FirstIndex(peers, e.name));
    } else {
      AppendSummarizes(peers, entries, e);
    }
  }

  /** `_parse_peers`. */
  method ParsePeers(raw: Option<Text>, config: Config, defaults: seq<Text>) returns (peers: seq<PeerSpec>)
    ensures Summarizes(peers, Entries(Items(raw, defaults), config))
  {
    hide Summarizes, Put, Strip, Join, Split, ServiceDnsUrl;
    var items := Items(raw, defaults);
    peers := [];
    assert Summarizes([], []) by { EmptySummary(); }
    for n := 0 to |items|
      invariant Summarizes(peers, Entries(items[..n], config))
    {
      var item := items[n];
      assert items[..n + 1][..n] == items[..n];
      assert EntryOf(item, config).None? ==> Entries(items[..n + 1], config) == Entries(items[..n], config);
      PutSummarizes(peers, Entries(items[..n], config), EntryOf(item, config).Or(PeerSpec([], [])));
      if item == [] { continue; }
      var parts := Split(item, EQUALS);
      var name := Strip(parts[0]);
      if name == [] { continue; }
      var explicit := Strip(Join(parts[1..], EQUALS));
      var base: Text;
      if explicit != [] {
        base := explicit;
      } else {
        base := ServiceDnsUrl(name, config);
      }
      peers := Put(peers, PeerSpec(name, DropSlashes(base)));
    }
    assert items[..|items|] == items;
  }

  lemma EmptySummary()
    ensures Summarizes([], [])
  {
  }

  // --- One result ---------------------------------------------------------------------------------------------

  predicate Increasing(xs: seq<nat>) {
    forall i, j :: 0 <= i < j < |xs| ==> xs[i] < xs[j]
  }

  lemma {:induction false} IncreasingUnique(xs: seq<nat>, ys: seq<nat>)
    requires Increasing(xs) && Increasing(ys) && forall x :: x in xs <==> x in ys
    ensures xs == ys
    decreases |xs|
  {
    if xs == [] {
      HasMember(ys);
    } else {
      assert xs[|xs| - 1] in ys;
      var m, n := |xs| - 1, |ys| - 1;
      assert ys[n] in xs;
      assert xs[m] == ys[n];
      forall x ensures x in xs[..m] <==> x in ys[..n] {
        assert x in xs[..m] ==> x in xs && x != xs[m];
        assert x in ys[..n] ==> x in ys && x != ys[n];
      }
      IncreasingUnique(xs[..m], ys[..n]);
    }
  }

  lemma HasMember(xs: seq<nat>)
    ensures xs != [] ==> exists x :: x in xs
  {
    if xs != [] { assert xs[0] in xs; }
  }

  function Places(peers: seq<PeerSpec>, entries: seq<PeerSpec>): (places: seq<nat>)
    requires forall i :: 0 <= i < |peers| ==> Named(entries, peers[i].name)
    ensures |places| == |peers| && forall i :: 0 <= i < |peers| ==> places[i] == FirstIndex(entries, peers[i].name)
  {
    seq(|peers|, i requires 0 <= i < |peers| => FirstIndex(entries, peers[i].name))
  }

  lemma PlacesShared(a: seq<PeerSpec>, b: seq<PeerSpec>, entries: seq<PeerSpec>, i: nat)
    requires Summarizes(a, entries) && Summarizes(b, entries) && i < |a|
    requires forall j :: 0 <= j < |b| ==> Named(entries, b[j].name)
    ensures Named(entries, a[i].name) && FirstIndex(entries, a[i].name) in Places(b, entries)
  {
    hide FirstIndex, LastUrl;
    NamedAt(a, i);
    var j :| 0 <= j < |b| && b[j].name == a[i].name;
    assert Places(b, entries)[j] == FirstIndex(entries, a[i].name);
  }

  lemma AllNamed(peers: seq<PeerSpec>, entries: seq<PeerSpec>)
    requires Summarizes(peers, entries)
    ensures forall i :: 0 <= i < |peers| ==> Named(entries, peers[i].name)
  {
    hide FirstIndex, LastUrl;
    forall i | 0 <= i < |peers| ensures Named(entries, peers[i].name) { NamedAt(peers, i); }
  }

  /** The entries determine the peers, their order and their URLs. */
  lemma SummaryUnique(a: seq<PeerSpec>, b: seq<PeerSpec>, entries: seq<PeerSpec>)
    requires Summarizes(a, entries) && Summarizes(b, entries)
    ensures a == b
  {
    hide FirstIndex, LastUrl, Named;
    AllNamed(a, entries);
    AllNamed(b, entries);
    var pa, pb := Places(a, entries), Places(b, entries);
    forall x ensures x in pa <==> x in pb {
      if x in pa { var i :| 0 <= i < |pa| && pa[i] == x; PlacesShared(a, b, entries, i); }
      if x in pb { var i :| 0 <= i < |pb| && pb[i] == x; PlacesShared(b, a, entries, i); }
    }
    IncreasingUnique(pa, pb);
    forall i | 0 <= i < |a| ensures a[i] == b[i] {
      assert FirstIndex(entries, a[i].name) == pa[i] && FirstIndex(entries, b[i].name) == pb[i];
      assert entries[pa[i]].name == a[i].name && entries[pb[i]].name == b[i].name;
    }
  }

  // --- Writing peers down and reading them again -------------------------------------------------------------------

  function Written(p: PeerSpec): Text {
    p.name + [EQUALS] + p.url
  }

  function Listing(peers: seq<PeerSpec>): (texts: seq<Text>)
    ensures |texts| == |peers| && forall i :: 0 <= i < |peers| ==> texts[i] == Written(peers[i])
  {
    seq(|peers|, i requires 0 <= i < |peers| => Written(peers[i]))
  }

  /** The setting that lists these peers. */
  function Setting(peers: seq<PeerSpec>): Text {
    Join(Listing(peers), COMMA)
  }

  /** What reading a setting makes of names and URLs. */
  predicate IsProper(p: PeerSpec) {
    && p.name != [] && Strip(p.name) == p.name && EQUALS !in p.name && COMMA !in p.name
    && (p.url == [] || p.url[|p.url| - 1] != SLASH)
  }

  /** A URL that survives being written down: not empty, no comma, no space at either end. */
  predicate IsWritable(url: Text) {
    url != [] && COMMA !in url && Strip(url) == url
  }

  lemma StripWithin(t: Text)
    ensures forall c :: c in Strip(t) ==> c in t
  {
  }

  lemma {:induction false} SplitWithin(t: Text, sep: CodePoint)
    ensures forall p, c :: p in Split(t, sep) && c in p ==> c in t
  {
    if t != [] {
      SplitWithin(t[1..], sep);
      var rest := Split(t[1..], sep);
      forall p, c | p in Split(t, sep) && c in p ensures c in t {
        assert p in rest || p == [] || p == [t[0]] + rest[0];
      }
    }
  }

  lemma {:induction false} StripRightTail(a: Text, b: Text)
    requires a != [] && !IsSpace(a[|a| - 1])
    ensures StripRight(a + b) == a + StripRight(b)
    decreases |b|
  {
    if b == [] {
      assert a + b == a;
    } else {
      assert (a + b)[..|a + b| - 1] == a + b[..|b| - 1];
      StripRightTail(a, b[..|b| - 1]);
    }
  }

  lemma {:induction false} AllSpace(t: Text)
    requires Strip(t) == []
    ensures forall c :: c in t ==> IsSpace(c)
    decreases |t|
  {
    if t != [] {
      if !IsSpace(t[0]) {
        SpaceEnded(t);
      } else {
        AllSpace(t[1..]);
      }
    }
  }

  lemma {:induction false} SpaceEnded(t: Text)
    requires t != [] && !IsSpace(t[0])
    ensures StripRight(t) != []
    decreases |t|
  {
    if IsSpace(t[|t| - 1]) { SpaceEnded(t[..|t| - 1]); }
  }

  lemma {:induction false} SlashKeeps(t: Text, k: nat)
    requires k < |t| && t[k] != SLASH
    ensures |DropSlashes(t)| > k
    decreases |t|
  {
    if t[|t| - 1] == SLASH { SlashKeeps(t[..|t| - 1], k); }
  }

  /** A derived URL is not blank. */
  lemma DerivedUrl(name: Text, config: Config)
    ensures var url := DropSlashes(ServiceDnsUrl(name, config)); exists k :: 0 <= k < |url| && url[k] == COLON
  {
    var full := ServiceDnsUrl(name, config);
    var k := |config.scheme|;
    assert AUTHORITY[0] == COLON;
    assert full[k] == COLON;
    SlashKeeps(full, k);
    assert DropSlashes(full)[k] == COLON;
  }

  lemma LeftFixed(t: Text)
    requires t != [] && !IsSpace(t[0])
    ensures StripLeft(t) == t
  {
  }

  lemma RightFixed(t: Text)
    requires t != [] && !IsSpace(t[|t| - 1])
    ensures StripRight(t) == t
  {
  }

  lemma StrippedEnds(t: Text)
    requires t != [] && Strip(t) == t
    ensures !IsSpace(t[0]) && !IsSpace(t[|t| - 1])
  {
    hide StripLeft, StripRight, IsSpace;
    var r := Strip(t);
  }

  lemma StrippedWritten(p: PeerSpec)
    requires IsProper(p)
    ensures Strip(Written(p)) == p.name + [EQUALS] + StripRight(p.url)
  {
    hide StripLeft, StripRight, Strip;
    StrippedEnds(p.name);
    hide IsProper;
    var head := p.name + [EQUALS];
    assert Written(p) == head + p.url && Written(p)[0] == p.name[0];
    LeftFixed(Written(p));
    StripRightTail(head, p.url);
    StripIs(Written(p));
  }

  lemma StripIs(t: Text)
    ensures Strip(t) == StripRight(StripLeft(t))
  {
  }

  /** What an entry reads after its "=". */
  function Read(u: Text, name: Text, config: Config): Text {
    DropSlashes(if Strip(u) != [] then Strip(u) else ServiceDnsUrl(name, config))
  }

  /** The entry that a written peer is read as. */
  lemma WrittenEntry(p: PeerSpec, config: Config)
    requires IsProper(p)
    ensures EntryOf(Strip(Written(p)), config) == Some(PeerSpec(p.name, Read(StripRight(p.url), p.name, config)))
  {
    hide ServiceDnsUrl, DropSlashes, Split, Join, StripRight, Strip;
    StrippedWritten(p);
    var u := StripRight(p.url);
    SplitPrefix(p.name, u, EQUALS);
    JoinSplit(u, EQUALS);
    assert ([p.name] + Split(u, EQUALS))[1..] == Split(u, EQUALS);
  }

  lemma PlainRead(p: PeerSpec, config: Config)
    requires IsProper(p) && p.url != [] && Strip(p.url) == p.url
    ensures Read(StripRight(p.url), p.name, config) == p.url
  {
    hide ServiceDnsUrl, Strip, StripRight, DropSlashes;
    StrippedEnds(p.url);
    RightFixed(p.url);
    KeptSlashes(p.url);
  }

  lemma BlankRead(p: PeerSpec, config: Config)
    requires Strip(StripRight(p.url)) == []
    ensures Read(StripRight(p.url), p.name, config) != p.url
  {
    hide ServiceDnsUrl, Strip, StripRight, DropSlashes;
    DerivedUrl(p.name, config);
    AllSpace(StripRight(p.url));
    RightSpaces(p.url);
    hide Read;
    var url := DropSlashes(ServiceDnsUrl(p.name, config));
    var k :| 0 <= k < |url| && url[k] == COLON;
    assert forall c :: c in p.url ==> IsSpace(c);
    assert url[k] in url && !IsSpace(url[k]);
    assert url != p.url;
    assert Read(StripRight(p.url), p.name, config) == url by { ReadBlank(StripRight(p.url), p.name, config); }
  }

  lemma ReadBlank(u: Text, name: Text, config: Config)
    requires Strip(u) == []
    ensures Read(u, name, config) == DropSlashes(ServiceDnsUrl(name, config))
  {
  }

  /** It is read as the same peer exactly when its URL is not blank or padded. */
  lemma WrittenRead(p: PeerSpec, config: Config)
    requires IsProper(p)
    ensures EntryOf(Strip(Written(p)), config).Some? && EntryOf(Strip(Written(p)), config).value.name == p.name
    ensures EntryOf(Strip(Written(p)), config) == Some(p) <==> p.url != [] && Strip(p.url) == p.url
  {
    hide ServiceDnsUrl, DropSlashes, EntryOf, Written, IsProper, Strip, StripRight;
    WrittenEntry(p, config);
    if p.url != [] && Strip(p.url) == p.url {
      PlainRead(p, config);
    } else if Strip(StripRight(p.url)) == [] {
      BlankRead(p, config);
    } else {
      if p.url == [] { NothingStripped(); }
      PaddedDiffers(p.url);
    }
  }

  lemma NothingStripped()
    ensures Strip(StripRight([])) == []
  {
  }

  lemma {:induction false} RightSpaces(t: Text)
    ensures forall c :: c in t && c !in StripRight(t) ==> IsSpace(c)
    decreases |t|
  {
    if t != [] && IsSpace(t[|t| - 1]) {
      RightSpaces(t[..|t| - 1]);
      assert t == t[..|t| - 1] + [t[|t| - 1]];
    }
  }

  lemma PaddedDiffers(url: Text)
    requires Strip(url) != url && Strip(StripRight(url)) != []
    ensures DropSlashes(Strip(StripRight(url))) != url
  {
    var explicit := Strip(StripRight(url));
    if IsSpace(url[|url| - 1]) {
      assert |StripRight(url)| < |url|;
    } else {
      assert StripRight(url) == url;
      assert IsSpace(url[0]);
    }
  }

  lemma {:induction false} EntriesAll(items: seq<Text>, config: Config)
    requires forall i :: 0 <= i < |items| ==> EntryOf(items[i], config).Some?
    ensures |Entries(items, config)| == |items|
    ensures forall i :: 0 <= i < |items| ==> Entries(items, config)[i] == EntryOf(items[i], config).value
    decreases |items|
  {
    hide EntryOf;
    if items != [] { EntriesAll(items[..|items| - 1], config); }
  }

  lemma {:induction false} EntriesFrom(items: seq<Text>, config: Config, e: PeerSpec)
    requires e in Entries(items, config)
    ensures exists i :: 0 <= i < |items| && EntryOf(items[i], config) == Some(e)
    decreases |items|
  {
    hide EntryOf;
    if e in Entries(items[..|items| - 1], config) {
      EntriesFrom(items[..|items| - 1], config, e);
      var i :| 0 <= i < |items| - 1 && EntryOf(items[..|items| - 1][i], config) == Some(e);
      assert items[i] == items[..|items| - 1][i];
    }
  }

  predicate NoCommas(config: Config) {
    COMMA !in config.namespace && COMMA !in config.clusterDomain && COMMA !in config.scheme
  }

  /** What is read from a setting is proper, and without commas when the configuration has none. */
  lemma ReadProper(setting: Text, config: Config, defaults: seq<Text>, e: PeerSpec)
    requires setting != [] && e in Entries(Items(Some(setting), defaults), config)
    ensures IsProper(e) && (NoCommas(config) ==> COMMA !in e.url)
  {
    var items := Items(Some(setting), defaults);
    EntriesFrom(items, config, e);
    var i :| 0 <= i < |items| && EntryOf(items[i], config) == Some(e);
    assert Split(setting, COMMA)[i] in Split(setting, COMMA);
    StripWithin(Split(setting, COMMA)[i]);
    EntryProper(items[i], config, e);
  }

  lemma EntryProper(item: Text, config: Config, e: PeerSpec)
    requires COMMA !in item && EntryOf(item, config) == Some(e)
    ensures IsProper(e) && (NoCommas(config) ==> COMMA !in e.url)
  {
    hide Split, Join, Strip, DropSlashes, ServiceDnsUrl;
    var parts := Split(item, EQUALS);
    assert parts[0] in parts;
    SplitWithin(item, EQUALS);
    StripWithin(parts[0]);
    StripFixed(e.name);
    var value := Join(parts[1..], EQUALS);
    JoinSplit(item, EQUALS);
    TailWithin(parts);
    StripWithin(value);
    if NoCommas(config) { DerivedNoComma(e.name, config); }
    SlashWithin(Strip(value));
    SlashWithin(ServiceDnsUrl(e.name, config));
  }

  lemma SlashWithin(t: Text)
    ensures forall c :: c in DropSlashes(t) ==> c in t
  {
  }

  lemma TailWithin(parts: seq<Text>)
    requires parts != []
    ensures forall c :: c in Join(parts[1..], EQUALS) ==> c in Join(parts, EQUALS)
  {
  }

  lemma {:induction false} DigitsNoComma(n: nat)
    ensures COMMA !in Digits(n)
  {
  }

  lemma DerivedNoComma(name: Text, config: Config)
    requires NoCommas(config) && COMMA !in name
    ensures COMMA !in ServiceDnsUrl(name, config)
  {
    if config.port < 0 { DigitsNoComma(-config.port); } else { DigitsNoComma(config.port); }
    assert COMMA !in AUTHORITY by { assert AUTHORITY == [COLON, SLASH, SLASH]; }
  }

  lemma SettingItems(peers: seq<PeerSpec>, defaults: seq<Text>)
    requires peers != [] && forall i :: 0 <= i < |peers| ==> IsProper(peers[i]) && COMMA !in peers[i].url
    ensures Items(Some(Setting(peers)), defaults) == Stripped(Listing(peers))
  {
    hide Split, Join, Strip;
    var texts := Listing(peers);
    forall t | t in texts ensures COMMA !in t {
      var i :| 0 <= i < |texts| && texts[i] == t;
    }
    SplitJoin(texts, COMMA);
    SettingNotEmpty(peers);
  }

  lemma SettingNotEmpty(peers: seq<PeerSpec>)
    requires peers != [] && peers[0].name != []
    ensures Setting(peers) != []
  {
    assert Listing(peers)[0] == Written(peers[0]);
  }

  lemma SelfSummary(peers: seq<PeerSpec>)
    requires UniqueNames(peers)
    ensures Summarizes(peers, peers)
  {
    hide LastUrl;
    forall i | 0 <= i < |peers| && Named(peers, peers[i].name)
      ensures FirstIndex(peers, peers[i].name) == i && peers[i].url == LastUrl(peers, peers[i].name)
    {
      OnlyUrl(peers, i);
    }
  }

  lemma {:induction false} OnlyUrl(peers: seq<PeerSpec>, i: nat)
    requires UniqueNames(peers) && i < |peers|
    ensures Named(peers, peers[i].name) && LastUrl(peers, peers[i].name) == peers[i].url
    decreases |peers|
  {
    NamedAt(peers, i);
    if i < |peers| - 1 {
      OnlyUrl(peers[..|peers| - 1], i);
      NamedAt(peers[..|peers| - 1], i);
    }
  }

  lemma {:induction false} LastUrlFrom(entries: seq<PeerSpec>, name: Text)
    requires Named(entries, name)
    ensures PeerSpec(name, LastUrl(entries, name)) in entries
    decreases |entries|
  {
    if entries[|entries| - 1].name != name {
      var i :| 0 <= i < |entries| && entries[i].name == name;
      NamedAt(entries[..|entries| - 1], i);
      LastUrlFrom(entries[..|entries| - 1], name);
    }
  }

  /** Writing peers down as a setting and reading it gives the same peers, in the same order, exactly
      when every URL is non-empty, has no comma and no space at its ends. A URL of nothing but
      slashes is read as an empty one, and is lost. */
  lemma SettingReadsBack(peers: seq<PeerSpec>, config: Config, defaults: seq<Text>)
    requires peers != [] && UniqueNames(peers) && NoCommas(config)
    requires forall i :: 0 <= i < |peers| ==> IsProper(peers[i])
    ensures Summarizes(peers, Entries(Items(Some(Setting(peers)), defaults), config))
       <==> forall i :: 0 <= i < |peers| ==> IsWritable(peers[i].url)
  {
    hide Summarizes, IsProper, UniqueNames, Setting, Items, Entries, EntryOf, Strip;
    var entries := Entries(Items(Some(Setting(peers)), defaults), config);
    if forall i :: 0 <= i < |peers| ==> COMMA !in peers[i].url {
      SettingItems(peers, defaults);
      SettingEntries(peers, config, defaults);
      if forall i :: 0 <= i < |peers| ==> IsWritable(peers[i].url) {
        assert entries == peers;
        SelfSummary(peers);
      } else if Summarizes(peers, entries) {
        SettingLoses(peers, entries);
      }
    } else if Summarizes(peers, entries) {
      var i :| 0 <= i < |peers| && COMMA in peers[i].url;
      CommaLost(peers, config, defaults, i);
    }
  }

  lemma CommaLost(peers: seq<PeerSpec>, config: Config, defaults: seq<Text>, i: nat)
    requires i < |peers| && IsProper(peers[0]) && NoCommas(config)
    requires Summarizes(peers, Entries(Items(Some(Setting(peers)), defaults), config))
    ensures COMMA !in peers[i].url
  {
    hide Summarizes, IsProper, Setting, Items, Entries;
    NameNotEmpty(peers[0]);
    SettingNotEmpty(peers);
    UrlRead(peers, Entries(Items(Some(Setting(peers)), defaults), config), i);
    ReadProper(Setting(peers), config, defaults, peers[i]);
  }

  lemma NameNotEmpty(p: PeerSpec)
    requires IsProper(p)
    ensures p.name != []
  {
  }

  lemma UrlRead(peers: seq<PeerSpec>, entries: seq<PeerSpec>, i: nat)
    requires Summarizes(peers, entries) && i < |peers|
    ensures peers[i] in entries
  {
    hide FirstIndex, LastUrl;
    AllNamed(peers, entries);
    LastUrlFrom(entries, peers[i].name);
    assert peers[i] == PeerSpec(peers[i].name, LastUrl(entries, peers[i].name));
  }

  /** Peers without commas are read one entry each, under their own names. */
  lemma SettingEntries(peers: seq<PeerSpec>, config: Config, defaults: seq<Text>)
    requires forall i :: 0 <= i < |peers| ==> IsProper(peers[i])
    ensures var entries := Entries(Stripped(Listing(peers)), config);
            && |entries| == |peers|
            && forall i :: 0 <= i < |peers| ==>
                 entries[i].name == peers[i].name
                 && (entries[i] == peers[i] <==> peers[i].url != [] && Strip(peers[i].url) == peers[i].url)
  {
    hide IsProper, EntryOf, Written, Strip;
    var items := Stripped(Listing(peers));
    forall i | 0 <= i < |items| ensures EntryOf(items[i], config).Some? { WrittenRead(peers[i], config); }
    EntriesAll(items, config);
    forall i | 0 <= i < |peers|
      ensures EntryOf(items[i], config).value.name == peers[i].name
      ensures EntryOf(items[i], config).value == peers[i] <==> peers[i].url != [] && Strip(peers[i].url) == peers[i].url
    {
      WrittenRead(peers[i], config);
    }
  }

  lemma SettingLoses(peers: seq<PeerSpec>, entries: seq<PeerSpec>)
    requires UniqueNames(peers) && |entries| == |peers| && Summarizes(peers, entries)
    requires forall i :: 0 <= i < |peers| ==> entries[i].name == peers[i].name
    ensures entries == peers
  {
    hide FirstIndex, LastUrl;
    assert UniqueNames(entries);
    forall i | 0 <= i < |peers| ensures entries[i] == peers[i] {
      OnlyUrl(entries, i);
      NamedAt(peers, i);
    }
  }
}
