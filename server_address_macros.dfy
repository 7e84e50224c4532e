/**
 * How ServerAddressMacroRegistrar turns the servers of a machine into macros:
 * the name template, the `/tcp` suffix rule, the ServerAddressMacro
 * constructor and the getMacros loop.
 */
module ServerAddressMacros {

  /** A macro as BaseMacro holds it: the name it is published under, the value it expands to, its description. */
  datatype Macro = Macro(name: string, value: string, description: string)

  /** The servers of a machine: server id (such as "8080/tcp") to the server's external url. */
  type Servers = map<string, string>

  const MacroNameTemplate: string := "${server.port.%}"
  const Placeholder: char := '%'
  const TcpSuffix: string := "/tcp"
  const DescriptionPrefix: string := "Returns external address of the server running on port "

  /**
   * The template is filled in with String.replaceAll, whose replacement
   * argument gives `$` (group reference) and `\` (escape) a meaning; a port
   * without either is inserted literally.
   */
  predicate LiteralReplacement(port: string)
  {
    '$' !in port && '\\' !in port
  }

  predicate LiteralIds(servers: Servers)
  {
    forall id :: id in servers ==> LiteralReplacement(id)
  }

  /** Every occurrence of `c` in `s`, left to right, replaced by `r`. */
  function ReplaceAll(s: string, c: char, r: string): (t: string)
    ensures c !in s ==> t == s
  {
    if s == [] then []
    else (if s[0] == c then r else [s[0]]) + ReplaceAll(s[1..], c, r)
  }

  lemma {:induction false} ReplaceAllAppend(a: string, b: string, c: char, r: string)
    ensures ReplaceAll(a + b, c, r) == ReplaceAll(a, c, r) + ReplaceAll(b, c, r)
  {
    if a == [] {
      assert a + b == b;
    } else {
      assert (a + b)[1..] == a[1..] + b;
      ReplaceAllAppend(a[1..], b, c, r);
    }
  }

  const NameHead: string := "${server.port."
  const NameTail: string := "}"

  /** The template is the name head, the placeholder and the name tail, and only the placeholder is a `%`. */
  lemma TemplateParts()
    ensures MacroNameTemplate == NameHead + [Placeholder] + NameTail
    ensures Placeholder !in NameHead && Placeholder !in NameTail
  {
    var parts := NameHead + [Placeholder] + NameTail;
    assert |parts| == |MacroNameTemplate| == 16;
    forall i | 0 <= i < 16 ensures parts[i] == MacroNameTemplate[i] { }
    forall i | 0 <= i < |NameHead| ensures NameHead[i] != Placeholder { }
  }

  /** The macro name for a port: the template with its placeholder replaced by the port. */
  function MacroName(port: string): (name: string)
    requires LiteralReplacement(port)
    ensures name == NameHead + port + NameTail
  {
    TemplateParts();
    ReplaceAllAppend(NameHead + [Placeholder], NameTail, Placeholder, port);
    ReplaceAllAppend(NameHead, [Placeholder], Placeholder, port);
    assert ReplaceAll([Placeholder], Placeholder, port) == port + [];
    ReplaceAll(MacroNameTemplate, Placeholder, port)
  }

  /** Two ports give the same macro name only when they are the same port. */
  lemma MacroNameInjective(p: string, q: string)
    requires LiteralReplacement(p) && LiteralReplacement(q)
    ensures MacroName(p) == MacroName(q) <==> p == q
  {
    if MacroName(p) == MacroName(q) {
      assert |p| == |q|;
      forall i | 0 <= i < |p| ensures p[i] == q[i] {
        assert MacroName(p)[|NameHead| + i] == p[i];
        assert MacroName(q)[|NameHead| + i] == q[i];
      }
    }
  }

  /** The ServerAddressMacro constructor. */
  function ServerAddressMacro(internalPort: string, externalAddress: string): (m: Macro)
    requires LiteralReplacement(internalPort)
    ensures m == Macro(NameHead + internalPort + NameTail, externalAddress, DescriptionPrefix + internalPort)
  {
    Macro(MacroName(internalPort), externalAddress, DescriptionPrefix + internalPort)
  }

  /** String.endsWith("/tcp"). */
  predicate EndsWithTcp(id: string)
  {
    |id| >= |TcpSuffix| && id[|id| - |TcpSuffix|..] == TcpSuffix
  }

  /** The id without its `/tcp` suffix: substring(0, length() - 4). */
  function StripTcp(id: string): (port: string)
    requires EndsWithTcp(id)
    ensures |port| == |id| - 4
    ensures port + TcpSuffix == id
  {
    id[..|id| - 4]
  }

  /** Stripping the suffix from any port followed by `/tcp` gives the port back. */
  lemma TcpRoundTrip(port: string)
    ensures EndsWithTcp(port + TcpSuffix)
    ensures StripTcp(port + TcpSuffix) == port
  {
    var id := port + TcpSuffix;
    assert id[|id| - 4..] == TcpSuffix;
  }

  /** A prefix of a literal replacement is one too. */
  lemma LiteralPrefix(id: string, k: nat)
    requires k <= |id| && LiteralReplacement(id)
    ensures LiteralReplacement(id[..k])
  {
    forall ch | ch in id[..k] ensures ch in id {
      var i :| 0 <= i < k && id[..k][i] == ch;
      assert id[i] == ch;
    }
  }

  /** The macros one server entry contributes in one pass of the getMacros loop. */
  function MacrosFor(id: string, url: string): (ms: seq<Macro>)
    requires LiteralReplacement(id)
    ensures |ms| == if EndsWithTcp(id) then 2 else 1
    ensures ms[0] == ServerAddressMacro(id, url)
    ensures EndsWithTcp(id) ==> LiteralReplacement(StripTcp(id)) && ms[1] == ServerAddressMacro(StripTcp(id), url)
  {
    if EndsWithTcp(id) then
      LiteralPrefix(id, |id| - 4);
      [ServerAddressMacro(id, url), ServerAddressMacro(StripTcp(id), url)]
    else
      [ServerAddressMacro(id, url)]
  }

  /** The macros one entry contributes, as a multiset. */
  lemma Contribution(id: string, url: string)
    requires LiteralReplacement(id)
    ensures EndsWithTcp(id) ==> LiteralReplacement(StripTcp(id))
    ensures multiset(MacrosFor(id, url)) ==
      multiset{ServerAddressMacro(id, url)} +
      if EndsWithTcp(id) then multiset{ServerAddressMacro(StripTcp(id), url)} else multiset{}
  {
    var ms := MacrosFor(id, url);
    if EndsWithTcp(id) {
      assert ms == [ms[0]] + [ms[1]];
    } else {
      assert ms == [ms[0]];
    }
  }

  /** The macros of the entries `ids` of `servers`, gathered in an unspecified order. */
  ghost function DerivedFrom(servers: Servers, ids: set<string>): multiset<Macro>
    requires ids <= servers.Keys && LiteralIds(servers)
    decreases ids
  {
    if ids == {} then multiset{}
    else
      var id :| id in ids;
      multiset(MacrosFor(id, servers[id])) + DerivedFrom(servers, ids - {id})
  }

  /** What getMacros returns for a machine with these servers. */
  ghost function ServerMacros(servers: Servers): multiset<Macro>
    requires LiteralIds(servers)
  {
    DerivedFrom(servers, servers.Keys)
  }

  /** The ids of `ids` that end in `/tcp`. */
  function TcpIds(ids: set<string>): set<string>
  {
    set id | id in ids && EndsWithTcp(id)
  }

  /** Any entry may be taken first: the result does not depend on iteration order. */
  lemma {:induction false} DerivedPick(servers: Servers, ids: set<string>, id: string)
    requires ids <= servers.Keys && LiteralIds(servers) && id in ids
    ensures DerivedFrom(servers, ids) == multiset(MacrosFor(id, servers[id])) + DerivedFrom(servers, ids - {id})
    decreases ids
  {
    var y :| y in ids && DerivedFrom(servers, ids) == multiset(MacrosFor(y, servers[y])) + DerivedFrom(servers, ids - {y});
    if y != id {
      DerivedPick(servers, ids - {y}, id);
      DerivedPick(servers, ids - {id}, y);
      assert ids - {y} - {id} == ids - {id} - {y};
    }
  }

  /** Every macro gathered from `ids` was contributed by one of the entries `ids`. */
  lemma {:induction false} DerivedOnlyFrom(servers: Servers, ids: set<string>, m: Macro)
    requires ids <= servers.Keys && LiteralIds(servers)
    requires m in DerivedFrom(servers, ids)
    ensures exists id :: id in ids && m in MacrosFor(id, servers[id])
    decreases ids
  {
    var id :| id in ids;
    var rest := ids - {id};
    DerivedPick(servers, ids, id);
    if m !in MacrosFor(id, servers[id]) {
      DerivedOnlyFrom(servers, rest, m);
      var x :| x in rest && m in MacrosFor(x, servers[x]);
      assert x in ids;
    }
  }

  lemma TcpIdsRemove(ids: set<string>, id: string)
    requires id in ids
    ensures |TcpIds(ids)| == |TcpIds(ids - {id})| + if EndsWithTcp(id) then 1 else 0
  {
    if EndsWithTcp(id) {
      assert TcpIds(ids) == TcpIds(ids - {id}) + {id};
    } else {
      assert TcpIds(ids) == TcpIds(ids - {id});
    }
  }

  /** getMacros builds one macro per server plus one per server whose id ends in `/tcp`. */
  lemma {:induction false} DerivedSize(servers: Servers, ids: set<string>)
    requires ids <= servers.Keys && LiteralIds(servers)
    ensures |DerivedFrom(servers, ids)| == |ids| + |TcpIds(ids)|
    decreases ids
  {
    if ids != {} {
      var id :| id in ids;
      DerivedPick(servers, ids, id);
      DerivedSize(servers, ids - {id});
      TcpIdsRemove(ids, id);
      var ms := MacrosFor(id, servers[id]);
      assert |multiset(ms)| == |ms|;
    }
  }

  /** Every server yields a macro named after its id and valued at its url; a `/tcp` server also yields one named after the stripped id. */
  lemma EveryServerPublished(servers: Servers, id: string)
    requires LiteralIds(servers) && id in servers
    ensures Macro(NameHead + id + NameTail, servers[id], DescriptionPrefix + id) in ServerMacros(servers)
    ensures EndsWithTcp(id) ==>
      var port := id[..|id| - 4];
      Macro(NameHead + port + NameTail, servers[id], DescriptionPrefix + port) in ServerMacros(servers)
  {
    DerivedPick(servers, servers.Keys, id);
  }

  /** Every produced macro is valued at the url of a server and named after that server's id or its stripped id. */
  lemma EveryMacroFromAServer(servers: Servers, m: Macro)
    requires LiteralIds(servers) && m in ServerMacros(servers)
    ensures exists id :: (id in servers && m.value == servers[id] &&
      (m == ServerAddressMacro(id, servers[id]) ||
       (EndsWithTcp(id) && LiteralReplacement(StripTcp(id)) && m == ServerAddressMacro(StripTcp(id), servers[id]))))
  {
    DerivedOnlyFrom(servers, servers.Keys, m);
    var id :| id in servers.Keys && m in MacrosFor(id, servers[id]);
  }

  /** With no `/tcp` ids there is exactly one macro per server. */
  lemma OneMacroPerServer(servers: Servers)
    requires LiteralIds(servers)
    requires forall id :: id in servers ==> !EndsWithTcp(id)
    ensures |ServerMacros(servers)| == |servers|
  {
    DerivedSize(servers, servers.Keys);
    assert TcpIds(servers.Keys) == {};
  }

  /** The macros of a `/tcp` server: one named after the full id, one after the stripped id. */
  lemma MacrosForTcpServer(port: string, url: string)
    requires LiteralReplacement(port)
    ensures LiteralReplacement(port + TcpSuffix)
    ensures multiset(MacrosFor(port + TcpSuffix, url)) ==
      multiset{ServerAddressMacro(port + TcpSuffix, url), ServerAddressMacro(port, url)}
  {
    TcpRoundTrip(port);
    assert '$' !in TcpSuffix && '\\' !in TcpSuffix;
    assert LiteralReplacement(port + TcpSuffix);
  }

  /**
   * A machine with a server `port/tcp` at url1 and a server `other` (not
   * ending in `/tcp`) at url2 yields exactly three macros: the two of
   * `port/tcp` valued at url1 and the one of `other` valued at url2.
   * ("8080/tcp" and "wsagent/http" are one instance.)
   */
  lemma TcpAndPlainServer(port: string, url1: string, other: string, url2: string)
    requires LiteralReplacement(port) && LiteralReplacement(other) && !EndsWithTcp(other)
    ensures var servers := map[port + TcpSuffix := url1, other := url2];
      LiteralIds(servers) &&
      ServerMacros(servers) == multiset{
        ServerAddressMacro(port + TcpSuffix, url1),
        ServerAddressMacro(port, url1),
        ServerAddressMacro(other, url2)}
  {
    var id := port + TcpSuffix;
    MacrosForTcpServer(port, url1);
    assert id != other by { TcpRoundTrip(port); }
    var servers := map[id := url1, other := url2];
    assert LiteralIds(servers);
    DerivedPick(servers, servers.Keys, id);
    assert servers.Keys - {id} == {other};
    DerivedPick(servers, {other}, other);
    assert {other} - {other} == {};
  }

  /**
   * A server `port` and a server `port/tcp` both publish a macro named
   * after `port`: names are not kept distinct.
   */
  lemma NamesCanCollide(port: string, url1: string, url2: string)
    requires LiteralReplacement(port)
    ensures var servers := map[port := url1, port + TcpSuffix := url2];
      LiteralIds(servers) &&
      ServerAddressMacro(port, url1) in ServerMacros(servers) &&
      ServerAddressMacro(port, url2) in ServerMacros(servers) &&
      ServerAddressMacro(port, url1).name == ServerAddressMacro(port, url2).name
  {
    var id := port + TcpSuffix;
    MacrosForTcpServer(port, url2);
    var servers := map[port := url1, id := url2];
    assert LiteralIds(servers);
    DerivedPick(servers, servers.Keys, port);
    DerivedPick(servers, servers.Keys, id);
  }

  /** One pass of the getMacros loop keeps "gathered plus still to gather" constant. */
  lemma GatherStep(servers: Servers, rest: set<string>, id: string, gathered: multiset<Macro>)
    requires rest <= servers.Keys && LiteralIds(servers) && id in rest
    ensures gathered + multiset(MacrosFor(id, servers[id])) + DerivedFrom(servers, rest - {id}) ==
      gathered + DerivedFrom(servers, rest)
  {
    DerivedPick(servers, rest, id);
  }

  /** getMacros: for each server entry, in whatever order the map yields them, add its macros. */
  method GetMacros(servers: Servers) returns (macros: multiset<Macro>)
    requires LiteralIds(servers)
    ensures macros == ServerMacros(servers)
  {
    macros := multiset{};
    var rest := servers.Keys;
    while rest != {}
      invariant rest <= servers.Keys
      invariant macros + DerivedFrom(servers, rest) == ServerMacros(servers)
      decreases rest
    {
      var id :| id in rest;
      var url := servers[id];
      ghost var before := macros;
      macros := macros + multiset{ServerAddressMacro(id, url)};
      if EndsWithTcp(id) {
        LiteralPrefix(id, |id| - 4);
        macros := macros + multiset{ServerAddressMacro(StripTcp(id), url)};
      }
      Contribution(id, url);
      GatherStep(servers, rest, id, before);
      rest := rest - {id};
    }
  }
}
