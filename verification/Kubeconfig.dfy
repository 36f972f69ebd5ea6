/** The tunnel's kubeconfig context: an edit when it opens, its undo when it closes. */
module Kubeconfig {

  datatype Cluster = Cluster(server: string, ca: string)

  datatype Context = Context(cluster: string, authInfo: string, namespace: string)

  /** A user: whether it holds a client certificate or a header credential, and the rest of it. */
  datatype AuthInfo = AuthInfo(hasCert: bool, hasHeaderCred: bool, detail: string)

  datatype Config = Config(
    clusters: map<string, Cluster>,
    contexts: map<string, Context>,
    authInfos: map<string, AuthInfo>,
    current: string)

  datatype Minted = MintFailed | Minted(user: AuthInfo)

  /** What a tunnel is opened with: the --context flag, the public URL, and how foreign calls turn out. */
  datatype Options = Options(flag: string, url: string, mint: Minted, writes: bool)

  /** What the cleanup closes over. */
  datatype Cleanup = Cleanup(name: string, previous: string, authInfoName: string)

  datatype Opened = Opened(config: Config, cleanup: Cleanup) | Refused

  const SUFFIX := "-tunnel"

  function BaseOf(c: Config, o: Options): string {
    if o.flag != "" then o.flag else c.current
  }

  /** Authenticates solely with a client certificate; an absent user does not. */
  predicate ClientCertOnly(c: Config, user: string) {
    user in c.authInfos && c.authInfos[user].hasCert && !c.authInfos[user].hasHeaderCred
  }

  /** The config with the tunnel's context added and selected. */
  function WithTunnel(c: Config, name: string, url: string, user: string, namespace: string): Config {
    c.(clusters := c.clusters[name := Cluster(url, "")],
       contexts := c.contexts[name := Context(name, user, namespace)],
       current := name)
  }

  function Open(c: Config, o: Options): Opened {
    var base := BaseOf(c, o);
    if base !in c.contexts then Refused else
      var cur, name := c.contexts[base], base + SUFFIX;
      var mints := ClientCertOnly(c, cur.authInfo);
      if mints && o.mint.MintFailed? then Refused
      else if !o.writes then Refused
      else
        var user := if mints then name else cur.authInfo;
        var authed := if mints then c.(authInfos := c.authInfos[name := o.mint.user]) else c;
        Opened(WithTunnel(authed, name, o.url, user, cur.namespace), Cleanup(name, c.current, user))
  }

  function Close(c: Config, cl: Cleanup): Config {
    Config(
      c.clusters - {cl.name},
      c.contexts - {cl.name},
      if cl.authInfoName == cl.name then c.authInfos - {cl.name} else c.authInfos,
      if c.current == cl.name then cl.previous else c.current)
  }

  class KubeconfigFile {
    var config: Config

    constructor (config: Config)
      ensures this.config == config
    {
      this.config := config;
    }

    /** writeTunnelContext: a refused tunnel leaves the file alone. */
    method WriteTunnelContext(o: Options) returns (r: Opened)
      modifies this
      ensures r == Open(old(config), o)
      ensures config == if r.Opened? then r.config else old(config)
    {
      var raw := config;
      var base := raw.current;
      if o.flag != "" { base := o.flag; }
      if base !in raw.contexts { return Refused; }
      var cur := raw.contexts[base];
      var name := base + SUFFIX;
      var authInfoName := cur.authInfo;
      if ClientCertOnly(raw, cur.authInfo) {
        if o.mint.MintFailed? { return Refused; }
        raw := raw.(authInfos := raw.authInfos[name := o.mint.user]);
        authInfoName := name;
      }
      var prevContext := raw.current;
      raw := raw.(clusters := raw.clusters[name := Cluster(o.url, "")]);
      raw := raw.(contexts := raw.contexts[name := Context(name, authInfoName, cur.namespace)]);
      raw := raw.(current := name);
      if !o.writes { return Refused; }
      config := raw;
      return Opened(raw, Cleanup(name, prevContext, authInfoName));
    }

    /** The cleanup edits a fresh read; it gives up when the file cannot be read or written. */
    method RunCleanup(cl: Cleanup, readable: bool, writable: bool)
      modifies this
      ensures config == if readable && writable then Close(old(config), cl) else old(config)
    {
      if !readable { return; }
      var reread := config;
      reread := reread.(clusters := reread.clusters - {cl.name});
      reread := reread.(contexts := reread.contexts - {cl.name});
      if cl.authInfoName == cl.name {
        reread := reread.(authInfos := reread.authInfos - {cl.name});
      }
      if reread.current == cl.name {
        reread := reread.(current := cl.previous);
      }
      if !writable { return; }
      config := reread;
    }
  }

  // ---- one tunnel ----

  /** Nothing of the user's own is named like the tunnel, where the cleanup deletes. */
  predicate Fresh(c: Config, cl: Cleanup) {
    && cl.name !in c.clusters && cl.name !in c.contexts
    && (cl.authInfoName == cl.name ==> cl.name !in c.authInfos)
  }

  /** A tunnel opens exactly if the base context exists, a token needed is minted, and the file is written. */
  lemma OpensIff(c: Config, o: Options)
    ensures Open(c, o).Opened? <==>
      var base := if o.flag != "" then o.flag else c.current;
      && base in c.contexts && o.writes
      && var user := c.contexts[base].authInfo;
        (user in c.authInfos && c.authInfos[user].hasCert && !c.authInfos[user].hasHeaderCred ==> o.mint.Minted?)
  {
  }

  /**
   * What an open tunnel offers: its own context is selected, leading to the public URL in the base
   * context's namespace, as a minted user if the base's has only a client certificate and else as the
   * base's own; whatever goes by other names is as before.
   */
  lemma OpenTunnelWorks(c: Config, o: Options)
    requires Open(c, o).Opened?
    ensures var base := if o.flag != "" then o.flag else c.current;
      var name, c' := base + "-tunnel", Open(c, o).config;
      && c'.current == name && name in c'.contexts && name in c'.clusters
      && c'.contexts[name].cluster == name && c'.contexts[name].namespace == c.contexts[base].namespace
      && c'.clusters[name].server == o.url && c'.clusters[name].ca == ""
      && c'.contexts - {name} == c.contexts - {name} && c'.clusters - {name} == c.clusters - {name}
      && var user := c.contexts[base].authInfo;
        if user in c.authInfos && c.authInfos[user].hasCert && !c.authInfos[user].hasHeaderCred then
          o.mint.Minted? && c'.contexts[name].authInfo == name && c'.authInfos == c.authInfos[name := o.mint.user]
        else c'.contexts[name].authInfo == user && c'.authInfos == c.authInfos
  {
  }

  /** The names the close will delete are not taken: the tunnel's, and a minted or like-named user's. */
  predicate NamesAreFree(c: Config, o: Options)
    requires BaseOf(c, o) in c.contexts
  {
    var name, user := BaseOf(c, o) + SUFFIX, c.contexts[BaseOf(c, o)].authInfo;
    && name !in c.clusters && name !in c.contexts
    && (ClientCertOnly(c, user) || user == name ==> name !in c.authInfos)
  }

  /** Opening and closing restores the config exactly if and only if the tunnel's names were free. */
  lemma OpenCloseRestoresIff(c: Config, o: Options)
    requires Open(c, o).Opened?
    ensures Close(Open(c, o).config, Open(c, o).cleanup) == c <==> NamesAreFree(c, o)
    ensures NamesAreFree(c, o) <==> Fresh(c, Open(c, o).cleanup)
  {
    var tun := Open(c, o);
    var cl, back := tun.cleanup, Close(tun.config, tun.cleanup);
    if Fresh(c, cl) {
      assert back.clusters == c.clusters && back.contexts == c.contexts && back.authInfos == c.authInfos;
    }
    assert cl.name !in back.clusters && cl.name !in back.contexts;
    assert cl.authInfoName == cl.name ==> cl.name !in back.authInfos;
  }

  /** A user that happens to be named like the tunnel is deleted by the close, though no token was minted. */
  lemma LikeNamedUserIsLost(token: AuthInfo, url: string)
    requires token.hasHeaderCred
    ensures var c := Config(map[], map["prod" := Context("k8s", "prod-tunnel", "")],
                          map["prod-tunnel" := token], "prod");
      var tun := Open(c, Options("", url, MintFailed, true));
      && tun.Opened?
      && "prod-tunnel" in tun.config.authInfos
      && "prod-tunnel" !in Close(tun.config, tun.cleanup).authInfos
  {
    assert "prod" + SUFFIX == "prod-tunnel";
  }

  // ---- sessions ----

  /** The user's own edits between opens and closes. */
  datatype Edit =
    | PutCluster(key: string, cluster: Cluster) | DropCluster(key: string)
    | PutContext(key: string, context: Context) | DropContext(key: string)
    | PutUser(key: string, user: AuthInfo) | DropUser(key: string)
    | UseContext(key: string)

  function Apply(c: Config, e: Edit): Config {
    match e
    case PutCluster(k, v) => c.(clusters := c.clusters[k := v])
    case DropCluster(k) => c.(clusters := c.clusters - {k})
    case PutContext(k, v) => c.(contexts := c.contexts[k := v])
    case DropContext(k) => c.(contexts := c.contexts - {k})
    case PutUser(k, v) => c.(authInfos := c.authInfos[k := v])
    case DropUser(k) => c.(authInfos := c.authInfos - {k})
    case UseContext(k) => c.(current := k)
  }

  function ApplyAll(c: Config, es: seq<Edit>): Config
    decreases es
  {
    if es == [] then c else ApplyAll(Apply(c, es[0]), es[1..])
  }

  /** A well-nested session: edits, and tunnels with a session inside. */
  datatype Session = End | Then(edit: Edit, next: Session) | Tunnel(options: Options, inner: Session, after: Session)

  /** Running it; a refused tunnel changes nothing and has no cleanup. */
  function Run(s: Session, c: Config): Config
    decreases s
  {
    match s
    case End => c
    case Then(e, next) => Run(next, Apply(c, e))
    case Tunnel(o, inner, after) =>
      var tun := Open(c, o);
      if tun.Refused? then Run(after, Run(inner, c))
      else Run(after, Close(Run(inner, tun.config), tun.cleanup))
  }

  /** Its edits alone, in order. */
  function EditsOf(s: Session): seq<Edit> {
    match s
    case End => []
    case Then(e, next) => [e] + EditsOf(next)
    case Tunnel(_, inner, after) => EditsOf(inner) + EditsOf(after)
  }

  /** The edit does not touch what the tunnel's cleanup will. */
  predicate Spares(e: Edit, cl: Cleanup) {
    e.key == cl.name ==> (e.PutUser? || e.DropUser?) && cl.authInfoName != cl.name
  }

  /** Every tunnel's names are fresh when it opens and left alone while it is open. */
  ghost predicate Undisturbed(s: Session, c: Config)
    decreases s
  {
    match s
    case End => true
    case Then(e, next) => Undisturbed(next, Apply(c, e))
    case Tunnel(o, inner, after) =>
      var tun := Open(c, o);
      if tun.Refused? then Undisturbed(inner, c) && Undisturbed(after, Run(inner, c))
      else
        && Fresh(c, tun.cleanup)
        && (forall e :: e in EditsOf(inner) ==> Spares(e, tun.cleanup))
        && Undisturbed(inner, tun.config)
        && Undisturbed(after, Close(Run(inner, tun.config), tun.cleanup))
  }

  /** c' is c with the tunnel open: closing it gives c back, whatever is selected. */
  ghost predicate Overlays(c': Config, c: Config, cl: Cleanup) {
    && Fresh(c, cl)
    && c'.clusters - {cl.name} == c.clusters && c'.contexts - {cl.name} == c.contexts
    && (if cl.authInfoName == cl.name then c'.authInfos - {cl.name} else c'.authInfos) == c.authInfos
    && ((c'.current == cl.name && c.current == cl.previous) || (c'.current == c.current && c.current != cl.name))
  }

  lemma EditKeepsOverlay(c': Config, c: Config, cl: Cleanup, e: Edit)
    requires Overlays(c', c, cl) && Spares(e, cl)
    ensures Overlays(Apply(c', e), Apply(c, e), cl)
  {
    var k, n := e.key, cl.name;
    match e
    case PutCluster(_, v) => assert c'.clusters[k := v] - {n} == (c'.clusters - {n})[k := v];
    case DropCluster(_) => assert c'.clusters - {k} - {n} == c'.clusters - {n} - {k};
    case PutContext(_, v) => assert c'.contexts[k := v] - {n} == (c'.contexts - {n})[k := v];
    case DropContext(_) => assert c'.contexts - {k} - {n} == c'.contexts - {n} - {k};
    case PutUser(_, v) => if cl.authInfoName == n { assert c'.authInfos[k := v] - {n} == (c'.authInfos - {n})[k := v]; }
    case DropUser(_) => if cl.authInfoName == n { assert c'.authInfos - {k} - {n} == c'.authInfos - {n} - {k}; }
    case UseContext(_) =>
  }

  lemma {:induction false} EditsKeepOverlay(c': Config, c: Config, cl: Cleanup, es: seq<Edit>)
    requires Overlays(c', c, cl) && forall e :: e in es ==> Spares(e, cl)
    ensures Overlays(ApplyAll(c', es), ApplyAll(c, es), cl)
    decreases es
  {
    if es != [] {
      assert es[0] in es;
      EditKeepsOverlay(c', c, cl, es[0]);
      EditsKeepOverlay(Apply(c', es[0]), Apply(c, es[0]), cl, es[1..]);
    }
  }

  lemma {:induction false} ApplyAllConcat(c: Config, a: seq<Edit>, b: seq<Edit>)
    ensures ApplyAll(c, a + b) == ApplyAll(ApplyAll(c, a), b)
    decreases a
  {
    if a == [] {
      assert a + b == b;
    } else {
      assert (a + b)[1..] == a[1..] + b;
      ApplyAllConcat(Apply(c, a[0]), a[1..], b);
    }
  }

  lemma OpenOverlays(c: Config, o: Options)
    requires Open(c, o).Opened? && Fresh(c, Open(c, o).cleanup)
    ensures Overlays(Open(c, o).config, c, Open(c, o).cleanup)
  {
    var c', n := Open(c, o).config, Open(c, o).cleanup.name;
    assert c'.clusters - {n} == c.clusters && c'.contexts - {n} == c.contexts;
    assert Open(c, o).cleanup.authInfoName == n ==> c'.authInfos - {n} == c.authInfos;
  }

  /**
   * After any well-nested session of tunnels with fresh names the config is what the user's own
   * edits alone would have made it, a context switch included: the tunnels leave no trace.
   */
  lemma {:induction false} TunnelsLeaveNoTrace(s: Session, c: Config)
    requires Undisturbed(s, c)
    ensures Run(s, c) == ApplyAll(c, EditsOf(s))
    decreases s
  {
    match s
    case End =>
    case Then(e, next) =>
      TunnelsLeaveNoTrace(next, Apply(c, e));
      assert EditsOf(s)[1..] == EditsOf(next);
    case Tunnel(o, inner, after) =>
      ApplyAllConcat(c, EditsOf(inner), EditsOf(after));
      var tun := Open(c, o);
      if tun.Refused? {
        TunnelsLeaveNoTrace(inner, c);
        TunnelsLeaveNoTrace(after, Run(inner, c));
      } else {
        TunnelsLeaveNoTrace(inner, tun.config);
        OpenOverlays(c, o);
        EditsKeepOverlay(tun.config, c, tun.cleanup, EditsOf(inner));
        TunnelsLeaveNoTrace(after, Close(Run(inner, tun.config), tun.cleanup));
      }
  }

  /**
   * Closing two tunnels in the order they were opened leaves an existing context selected exactly if
   * both had one name and the user had selected another context that exists; with two names the
   * first tunnel's context, already removed, is left selected.
   */
  lemma CrossedClosesDangleIff(c: Config, first: Options, second: Options)
    requires Open(c, first).Opened? && Open(Open(c, first).config, second).Opened?
    ensures var a := Open(c, first);
      var b := Open(a.config, second);
      var final := Close(Close(b.config, a.cleanup), b.cleanup);
      && (final.current in final.contexts
          <==> a.cleanup.name == b.cleanup.name && c.current != a.cleanup.name && c.current in c.contexts)
      && (a.cleanup.name != b.cleanup.name ==> final.current == a.cleanup.name && final.current !in final.contexts)
  {
  }
}
