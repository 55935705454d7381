/**
  `start` and `listen`: option normalisation, the GET-only directory-listing fallback,
  the choice between retrying ports and a single bind, and what is reported once the
  server listens (host list, address lines, completion callback arguments).
 */
module Server {
  import opened Results
  import opened JsValues
  import opened JsStrings
  import opened PosixPaths
  import DirectoryIndex
  import PortSearch
  import Ipv4Addresses

  const DefaultPort := 8080
  const DefaultIndex := "index.html"
  const AllInterfaces := "0.0.0.0"

  /** The option names `start` writes back into the options object. */
  const NormalizedKeys: set<string> :=
    {"webroot", "tryNextPort", "port", "host", "index", "printAccessLog", "printLog"}

  /** The values `start` works with after defaulting, and the options object it wrote them back into. */
  datatype Config = Config(
    webroot: Path,
    port: JsValue,
    tryNextPort: JsValue,
    index: string,
    host: string,
    printAccessLog: bool,
    printLog: bool,
    options: Object)

  /** `path.resolve` throws a TypeError when `options.webroot` is truthy but not a string. */
  datatype StartError = WebrootNotAString

  /** The options object once `start` has stored the normalised values in it. */
  predicate WrittenBack(cfg: Config, given: Object) {
    && cfg.options.Keys == given.Keys + NormalizedKeys
    && (forall k :: k in given && k !in NormalizedKeys ==> cfg.options[k] == given[k])
    && cfg.options["webroot"] == Str(ToString(cfg.webroot))
    && cfg.options["tryNextPort"] == cfg.tryNextPort
    && cfg.options["port"] == cfg.port
    && cfg.options["host"] == Str(cfg.host)
    && cfg.options["index"] == Str(cfg.index)
    && cfg.options["printAccessLog"] == Bool(cfg.printAccessLog)
    && cfg.options["printLog"] == Bool(cfg.printLog)
  }

  /** "0.0.0.0" has no surrounding whitespace, so trimming the default host keeps it. */
  lemma TrimAllInterfaces()
    ensures Trim(AllInterfaces) == AllInterfaces
  {
    var s := TrimStart(AllInterfaces);
    assert !IsWhitespace(AllInterfaces[0]);
    assert s == AllInterfaces;
    assert !IsWhitespace(AllInterfaces[|AllInterfaces| - 1]);
  }

  /** `start`'s write-back of the normalised options into the options object, keeping every other key. */
  function WriteBack(o: Object, cfg: Config): (options: Object)
    ensures WrittenBack(cfg.(options := options), o)
  {
    o["webroot" := Str(ToString(cfg.webroot))]["tryNextPort" := cfg.tryNextPort]
      ["port" := cfg.port]["host" := Str(cfg.host)]["index" := Str(cfg.index)]
      ["printAccessLog" := Bool(cfg.printAccessLog)]["printLog" := Bool(cfg.printLog)]
  }

  /** `start`'s `path.resolve(process.cwd(), options.webroot || '')`; a falsy web root resolves to `cwd` itself. */
  function WebrootOption(cwd: Path, w: JsValue): (p: Path)
    requires Canonical(cwd)
    requires !Truthy(w) || w.Str?
    ensures Canonical(p)
    ensures !Truthy(w) ==> p == cwd
    ensures Truthy(w) ==> p == Resolve(cwd, w.s)
  {
    ResolveIsCanonical(cwd, if Truthy(w) then w.s else "");
    assert Split("") == [""] by {
      assert Split("")[0] == "";
    }
    Resolve(cwd, if Truthy(w) then w.s else "")
  }

  /** `start`'s host default and its `host.trim()` on write-back: a string host is trimmed, anything else means "0.0.0.0". */
  function HostOption(v: JsValue): (h: string)
    ensures v.Str? ==> h == Trim(v.s)
    ensures !v.Str? ==> h == AllInterfaces
  {
    if v.Str? then Trim(v.s) else AllInterfaces
  }

  /** The source trims the defaulted host as well; for "0.0.0.0" that changes nothing. */
  lemma HostOptionTrims(v: JsValue)
    ensures HostOption(v) == Trim(if v.Str? then v.s else AllInterfaces)
  {
    if !v.Str? {
      TrimAllInterfaces();
    }
  }

  /** The defaulting rules of `start` (including the `printLog` rule), option by option. */
  predicate Defaulted(cfg: Config, o: Object, cwd: Path) {
    && (!Truthy(Get(o, "webroot")) ==> cfg.webroot == cwd)
    && (Truthy(Get(o, "webroot")) && Get(o, "webroot").Str? ==> cfg.webroot == Resolve(cwd, Get(o, "webroot").s))
    && (Truthy(Get(o, "port")) ==> cfg.port == Get(o, "port"))
    && (!Truthy(Get(o, "port")) ==> cfg.port == Num(DefaultPort))
    && ("tryNextPort" in o ==> cfg.tryNextPort == o["tryNextPort"])
    && ("tryNextPort" !in o ==> cfg.tryNextPort == Bool(true))
    && (Get(o, "index").Str? ==> cfg.index == Get(o, "index").s)
    && (!Get(o, "index").Str? ==> cfg.index == DefaultIndex)
    && (Get(o, "host").Str? ==> cfg.host == Trim(Get(o, "host").s))
    && (!Get(o, "host").Str? ==> cfg.host == AllInterfaces)
    && (Get(o, "printAccessLog").Bool? ==> cfg.printAccessLog == Get(o, "printAccessLog").b)
    && (!Get(o, "printAccessLog").Bool? ==> !cfg.printAccessLog)
    && ("printLog" in o ==> cfg.printLog == Truthy(o["printLog"]))
    && ("printLog" !in o ==> cfg.printLog)
  }

  /** `start`'s option defaults: every option with its default applied (the options object itself untouched). */
  function Defaults(o: Object, cwd: Path): (cfg: Config)
    requires Canonical(cwd)
    requires !Truthy(Get(o, "webroot")) || Get(o, "webroot").Str?
    ensures Canonical(cfg.webroot) && Truthy(cfg.port)
    ensures Defaulted(cfg, o, cwd)
  {
    Config(
      WebrootOption(cwd, Get(o, "webroot")),
      if Truthy(Get(o, "port")) then Get(o, "port") else Num(DefaultPort),
      if "tryNextPort" in o then o["tryNextPort"] else Bool(true),
      if Get(o, "index").Str? then Get(o, "index").s else DefaultIndex,
      HostOption(Get(o, "host")),
      if Get(o, "printAccessLog").Bool? then Get(o, "printAccessLog").b else false,
      if "printLog" in o then Truthy(o["printLog"]) else true,
      o)
  }

  /** `start`'s `if (!options)` guard: a falsy `options` (modelled as None) is replaced by `{}`. */
  function OptionsObject(given: Option<Object>): (o: Object)
    ensures forall k :: Get(o, k) == (if given.Some? then Get(given.value, k) else Undefined)
  {
    if given.Some? then given.value else map[]
  }

  /**
    The normalisation at the top of `start`: a falsy `options` becomes `{}`; every option gets
    its default by JavaScript's truthiness, `in` and `typeof` rules; the results are written
    back. `cwd` stands for `process.cwd()`; `options` is an object or a falsy value, as its
    documented type says.
   */
  function NormalizeOptions(given: Option<Object>, cwd: Path): (r: Result<Config, StartError>)
    requires Canonical(cwd)
    ensures r.Err? <==> Truthy(Get(OptionsObject(given), "webroot")) && !Get(OptionsObject(given), "webroot").Str?
    ensures r.Ok? ==> Canonical(r.value.webroot) && Truthy(r.value.port)
    ensures r.Ok? ==> Defaulted(r.value, OptionsObject(given), cwd)
    ensures r.Ok? ==> WrittenBack(r.value, OptionsObject(given))
  {
    var o := OptionsObject(given);
    if Truthy(Get(o, "webroot")) && !Get(o, "webroot").Str? then
      Err(WebrootNotAString)
    else
      var cfg := Defaults(o, cwd);
      Ok(cfg.(options := WriteBack(o, cfg)))
  }

  /** A non-empty path string: "/" for the root, "/a/..." otherwise, so it is truthy. */
  lemma ToStringNonEmpty(p: Path)
    ensures ToString(p) != ""
  {
    if p != [] {
      assert Cat(p) == "/" + p[0] + Cat(p[1..]);
    }
  }

  /** Writing the normalised values back into an object that already holds them changes nothing. */
  lemma WriteBackFixpoint(cfg: Config, o: Object)
    requires WrittenBack(cfg, o)
    ensures WriteBack(cfg.options, cfg) == cfg.options
  {
    var w := WriteBack(cfg.options, cfg);
    assert w.Keys == cfg.options.Keys;
    forall k | k in w
      ensures w[k] == cfg.options[k]
    {
    }
  }

  /** A resolved web root, written back as a string, resolves to itself. */
  lemma WebrootFixpoint(webroot: Path, cwd: Path)
    requires Canonical(cwd) && Canonical(webroot)
    ensures WebrootOption(cwd, Str(ToString(webroot))) == webroot
  {
    ToStringNonEmpty(webroot);
    ResolveToString(cwd, webroot);
  }

  /** A normalised host is already trimmed. */
  lemma HostFixpoint(host: string, v: JsValue)
    requires v.Str? ==> host == Trim(v.s)
    requires !v.Str? ==> host == AllInterfaces
    ensures HostOption(Str(host)) == host
  {
    if v.Str? {
      TrimIdempotent(v.s);
    } else {
      TrimAllInterfaces();
    }
  }

  /** Defaulting an object that already holds normalised values yields those values back. */
  lemma DefaultsFixpoint(cfg: Config, cwd: Path)
    requires Canonical(cwd) && Canonical(cfg.webroot) && Truthy(cfg.port)
    requires HostOption(Str(cfg.host)) == cfg.host
    requires Get(cfg.options, "webroot") == Str(ToString(cfg.webroot))
    requires Get(cfg.options, "port") == cfg.port
    requires "tryNextPort" in cfg.options && cfg.options["tryNextPort"] == cfg.tryNextPort
    requires Get(cfg.options, "index") == Str(cfg.index)
    requires Get(cfg.options, "host") == Str(cfg.host)
    requires Get(cfg.options, "printAccessLog") == Bool(cfg.printAccessLog)
    requires "printLog" in cfg.options && cfg.options["printLog"] == Bool(cfg.printLog)
    ensures !Truthy(Get(cfg.options, "webroot")) || Get(cfg.options, "webroot").Str?
    ensures Defaults(cfg.options, cwd) == cfg
  {
    WebrootFixpoint(cfg.webroot, cwd);
  }

  /** Normalising an object that holds a configuration's own values, written back, gives that configuration. */
  lemma NormalizeFixpoint(cfg: Config, cwd: Path)
    requires Canonical(cwd) && Canonical(cfg.webroot) && Truthy(cfg.port)
    requires HostOption(Str(cfg.host)) == cfg.host
    requires Get(cfg.options, "webroot") == Str(ToString(cfg.webroot))
    requires Get(cfg.options, "port") == cfg.port
    requires "tryNextPort" in cfg.options && cfg.options["tryNextPort"] == cfg.tryNextPort
    requires Get(cfg.options, "index") == Str(cfg.index)
    requires Get(cfg.options, "host") == Str(cfg.host)
    requires Get(cfg.options, "printAccessLog") == Bool(cfg.printAccessLog)
    requires "printLog" in cfg.options && cfg.options["printLog"] == Bool(cfg.printLog)
    requires WriteBack(cfg.options, cfg) == cfg.options
    ensures NormalizeOptions(Some(cfg.options), cwd) == Ok(cfg)
  {
    DefaultsFixpoint(cfg, cwd);
    assert OptionsObject(Some(cfg.options)) == cfg.options;
  }

  /** Normalising the options object a normalisation produced changes nothing: it is a fixpoint. */
  lemma NormalizeIdempotent(given: Option<Object>, cwd: Path)
    requires Canonical(cwd)
    requires NormalizeOptions(given, cwd).Ok?
    ensures var cfg := NormalizeOptions(given, cwd).value;
      NormalizeOptions(Some(cfg.options), cwd) == Ok(cfg)
  {
    var o := OptionsObject(given);
    var cfg := NormalizeOptions(given, cwd).value;
    HostFixpoint(cfg.host, Get(o, "host"));
    WriteBackFixpoint(cfg, o);
    NormalizeFixpoint(cfg, cwd);
  }

  /**
    A host option made only of whitespace normalises to "", and a server started with it
    reports every discovered IPv4 address, just as with "0.0.0.0".
   */
  lemma BlankHostMeansAllInterfaces(o: Object, cwd: Path, port: int, ifaces: seq<Ipv4Addresses.Interface>)
    requires Canonical(cwd)
    requires Get(o, "host").Str? && forall i :: 0 <= i < |Get(o, "host").s| ==> IsWhitespace(Get(o, "host").s[i])
    requires NormalizeOptions(Some(o), cwd).Ok?
    ensures NormalizeOptions(Some(o), cwd).value.host == ""
    ensures OnListening(NormalizeOptions(Some(o), cwd).value, port, ifaces).completion.hosts
      == Ipv4Addresses.AllIPv4Addresses(ifaces)
  {
    TrimEmptyIffBlank(Get(o, "host").s);
  }

  /** The GET gate: the request method, trimmed and upper-cased, is exactly "GET". */
  predicate IsGet(verb: string)
    ensures IsGet(verb) ==> |Trim(verb)| == 3
    ensures Trim(verb) == "GET" || Trim(verb) == "get" ==> IsGet(verb)
  {
    var t := Trim(verb);
    UpperGet();
    ToUpper(t) == "GET"
  }

  /** "GET" and "get" both upper-case to "GET". */
  lemma UpperGet()
    ensures ToUpper("GET") == "GET" && ToUpper("get") == "GET"
  {
    assert ToUpper("get")[0] == 'G' && ToUpper("get")[1] == 'E' && ToUpper("get")[2] == 'T';
  }

  /** The gate admits exactly "get" in any letter case, with any surrounding whitespace. */
  lemma IsGetIff(verb: string)
    ensures IsGet(verb) <==>
      var t := Trim(verb);
      |t| == 3 && (t[0] == 'g' || t[0] == 'G') && (t[1] == 'e' || t[1] == 'E') && (t[2] == 't' || t[2] == 'T')
  {
    var t := Trim(verb);
    var u := ToUpper(t);
    if |t| == 3 {
      assert u == "GET" <==> u[0] == 'G' && u[1] == 'E' && u[2] == 'T';
    }
  }

  /** What the directory-listing middleware does with a request. */
  datatype Response = SendHtml(listing: DirectoryIndex.Listing) | PassOn

  /** The directory read it performed, if any, and the response. */
  datatype Handling = Handling(readAt: Option<Path>, response: Response)

  /**
    The directory-listing middleware: for a GET, try `readDirectoryIndex` and send its HTML
    on success, call `next()` on failure; for any other method call `next()` at once.
   */
  function DirectoryFallback(webroot: Path, verb: string, url: string, readdir: Path -> DirectoryIndex.ReadResult): (h: Handling)
    requires Canonical(webroot)
    ensures h.readAt.Some? <==> IsGet(verb) && DirectoryIndex.Within(webroot, DirectoryIndex.Candidate(webroot, url))
    ensures h.readAt.Some? ==> webroot <= h.readAt.value
    ensures h.response.SendHtml? <==> h.readAt.Some? && readdir(h.readAt.value).Entries?
    ensures h.response.SendHtml? ==>
      && h.response.listing.dirname == url
      && h.response.listing.files == [".."] + readdir(h.readAt.value).names
  {
    if IsGet(verb) then
      var c := DirectoryIndex.ReadDirectoryIndex(webroot, url, readdir);
      match c.reply
      case Render(listing) =>
        assert listing.files == [listing.files[0]] + listing.files[1..];
        Handling(c.readAt, SendHtml(listing))
      case Fail(_) => Handling(c.readAt, PassOn)
    else
      Handling(None, PassOn)
  }

  /** One reported address: the http URL of `index` on `host` at `port`, the port in decimal. */
  function AddressUrl(host: string, port: int, index: string): string {
    "http://" + host + (":" + IntToDecimal(port) + "/" + index)
  }

  /** Text between a fixed head and a fixed tail is determined by the whole. */
  lemma MiddleDetermined(head: string, m1: string, m2: string, tail: string)
    requires head + m1 + tail == head + m2 + tail
    ensures m1 == m2
  {
    var u := head + m1 + tail;
    assert m1 == u[|head|..|u| - |tail|];
    assert m2 == u[|head|..|u| - |tail|];
  }

  /** For a fixed port and index, an address line names its host unambiguously. */
  lemma AddressUrlDeterminesHost(h1: string, h2: string, port: int, index: string)
    ensures AddressUrl(h1, port, index) == AddressUrl(h2, port, index) ==> h1 == h2
  {
    var tail := ":" + IntToDecimal(port) + "/" + index;
    if AddressUrl(h1, port, index) == AddressUrl(h2, port, index) {
      MiddleDetermined("http://", h1, h2, tail);
    }
  }

  /** The address lines `listen` logs, one per reported host, in list order. */
  function AddressLines(hosts: seq<string>, port: int, index: string): (lines: seq<string>)
    ensures |lines| == |hosts|
    ensures forall i :: 0 <= i < |hosts| ==> lines[i] == "- " + AddressUrl(hosts[i], port, index)
    decreases |hosts|
  {
    if hosts == [] then []
    else ["- " + AddressUrl(hosts[0], port, index)] + AddressLines(hosts[1..], port, index)
  }

  /**
    Two address lines are equal exactly when their hosts are, so the lines repeat the host
    list's duplicates and no more.
   */
  lemma AddressLinesDistinguishHosts(hosts: seq<string>, port: int, index: string, i: nat, j: nat)
    requires i < |hosts| && j < |hosts|
    ensures var lines := AddressLines(hosts, port, index);
      lines[i] == lines[j] <==> hosts[i] == hosts[j]
  {
    var lines := AddressLines(hosts, port, index);
    if lines[i] == lines[j] {
      assert lines[i][2..] == AddressUrl(hosts[i], port, index);
      assert lines[j][2..] == AddressUrl(hosts[j], port, index);
      AddressUrlDeterminesHost(hosts[i], hosts[j], port, index);
    }
  }

  /** What `listen`'s callback produces once the server listens: the callback's arguments and the log. */
  datatype Announcement = Announcement(completion: Completion, log: seq<string>)

  /** The arguments of the completion callback: port, reported hosts, web root and normalised options. */
  datatype Completion = Completion(port: int, hosts: seq<string>, webroot: string, options: Object)

  /**
    The lines `listen` logs on `port` for the reported `hosts`: nothing without `printLog`;
    otherwise the start and web-root lines, then one address line for a single configured host,
    or a heading and one line per reported host, in list order.
   */
  function StartupLog(cfg: Config, port: int, hosts: seq<string>): (log: seq<string>)
    ensures !cfg.printLog ==> log == []
    ensures cfg.printLog ==>
      && |log| == 3 + (if cfg.host != "" && cfg.host != AllInterfaces then 0 else |hosts|)
      && log[0] == "Server Started"
      && log[1] == "Webroot: " + ToString(cfg.webroot)
    ensures cfg.printLog && cfg.host != "" && cfg.host != AllInterfaces ==>
      log[2] == "Address: " + AddressUrl(cfg.host, port, cfg.index)
    ensures cfg.printLog && (cfg.host == "" || cfg.host == AllInterfaces) ==>
      && log[2] == "Addresses:"
      && forall i :: 0 <= i < |hosts| ==> log[3 + i] == "- " + AddressUrl(hosts[i], port, cfg.index)
  {
    if !cfg.printLog then []
    else if cfg.host != "" && cfg.host != AllInterfaces then
      ["Server Started", "Webroot: " + ToString(cfg.webroot), "Address: " + AddressUrl(cfg.host, port, cfg.index)]
    else
      var lines := AddressLines(hosts, port, cfg.index);
      var log := ["Server Started", "Webroot: " + ToString(cfg.webroot), "Addresses:"] + lines;
      assert forall i :: 0 <= i < |hosts| ==> log[3 + i] == lines[i];
      log
  }

  /**
    The `app.listen` callback on `port`. A host that names one interface is reported alone;
    "" or "0.0.0.0" reports every discovered address. `ifaces` stands for `os.networkInterfaces()`.
   */
  function OnListening(cfg: Config, port: int, ifaces: seq<Ipv4Addresses.Interface>): (a: Announcement)
    ensures a.completion.port == port
    ensures a.completion.webroot == ToString(cfg.webroot) && a.completion.options == cfg.options
    ensures cfg.host != "" && cfg.host != AllInterfaces ==> a.completion.hosts == [cfg.host]
    ensures cfg.host == "" || cfg.host == AllInterfaces ==>
      a.completion.hosts == Ipv4Addresses.AllIPv4Addresses(ifaces)
    ensures a.log == StartupLog(cfg, port, a.completion.hosts)
  {
    var hosts :=
      if cfg.host != "" && cfg.host != AllInterfaces then [cfg.host]
      else Ipv4Addresses.AllIPv4Addresses(ifaces);
    Announcement(Completion(port, hosts, ToString(cfg.webroot), cfg.options), StartupLog(cfg, port, hosts))
  }

  /**
    With logging on, every reported host has its own address line (that distinct hosts have
    distinct lines is `AddressLinesDistinguishHosts`).
   */
  lemma LogNamesEveryHost(cfg: Config, port: int, ifaces: seq<Ipv4Addresses.Interface>)
    requires cfg.printLog
    ensures var a := OnListening(cfg, port, ifaces);
      forall i :: 0 <= i < |a.completion.hosts| ==>
        ("- " + AddressUrl(a.completion.hosts[i], port, cfg.index) in a.log
         || "Address: " + AddressUrl(a.completion.hosts[i], port, cfg.index) in a.log)
  {
    var a := OnListening(cfg, port, ifaces);
    forall i | 0 <= i < |a.completion.hosts|
      ensures "- " + AddressUrl(a.completion.hosts[i], port, cfg.index) in a.log
         || "Address: " + AddressUrl(a.completion.hosts[i], port, cfg.index) in a.log
    {
      if !(cfg.host != "" && cfg.host != AllInterfaces) {
        assert a.log[3 + i] == "- " + AddressUrl(a.completion.hosts[i], port, cfg.index);
      } else {
        assert a.log[2] == "Address: " + AddressUrl(a.completion.hosts[i], port, cfg.index);
      }
    }
  }

  /**
    What `app.listen(port, host)` leads to on one port: listening, an 'error' event on the
    returned server, or an exception thrown by the call itself.
   */
  datatype BindResult = Listens | Fails(code: string) | Throws(code: string)

  const MaxPort := 65535
  const BadPort := "ERR_SOCKET_BAD_PORT"

  /** Node's `net.Server.listen` throws a RangeError for a port outside 0-65535 before binding anything. */
  ghost predicate ChecksPortRange(appListen: int -> BindResult) {
    forall p :: !(0 <= p <= MaxPort) ==> appListen(p) == Throws(BadPort)
  }

  /**
    How starting ends: listening, announced as above, or with an error that `start` does not
    handle. `Crashed` covers both a throw that leaves `start` synchronously on the first bind
    (its caller can catch it) and an 'error' event thrown from a listener later.
   */
  datatype StartResult =
    | Running(attempts: seq<int>, announcement: Announcement)
    | Crashed(attempts: seq<int>, fault: PortSearch.Fault)

  /**
    What the search sees of one `app.listen` call. When the call returns, it returns a server,
    so the search never sees a non-server; a throw reaches the search as a throw.
   */
  function AsAttempt(b: BindResult): (a: PortSearch.Attempt)
    ensures a != PortSearch.NotAServer
    ensures PortSearch.InUse(a) <==> b == Fails(PortSearch.AddressInUse)
    ensures a.Throws? <==> b.Throws?
  {
    match b
    case Listens => PortSearch.Listening
    case Fails(code) => PortSearch.ErrorEvent(code)
    case Throws(code) => PortSearch.Throws(code)
  }

  /**
    The "start server" branch of `start` with `listen`: with a truthy `tryNextPort`, search
    upwards from the configured port, with no `onerror`, so a failure is thrown; otherwise bind the configured
    port once, where an 'error' nobody listens for is thrown too. `appListen` stands for what
    Express's `app.listen` leads to on each port; `stop` is the search's proof bound.
   */
  function StartListening(cfg: Config, appListen: int -> BindResult, ifaces: seq<Ipv4Addresses.Interface>, ghost stop: int): (r: StartResult)
    requires cfg.port.Num?
    requires Truthy(cfg.tryNextPort) ==> cfg.port.n <= stop && appListen(stop) != Fails(PortSearch.AddressInUse)
    ensures |r.attempts| >= 1
    ensures !Truthy(cfg.tryNextPort) ==> r.attempts == [cfg.port.n]
    ensures forall i :: 0 <= i < |r.attempts| ==> r.attempts[i] == cfg.port.n + i
    ensures forall i :: 0 <= i < |r.attempts| - 1 ==> appListen(r.attempts[i]) == Fails(PortSearch.AddressInUse)
    ensures var last := r.attempts[|r.attempts| - 1];
      && (Truthy(cfg.tryNextPort) ==> last <= stop && appListen(last) != Fails(PortSearch.AddressInUse))
      && (r.Running? <==> appListen(last) == Listens)
      && (r.Running? ==> r.announcement == OnListening(cfg, last, ifaces))
      && (r.Crashed? ==> r.fault == PortSearch.ListenFault(appListen(last).code))
  {
    var port := cfg.port.n;
    if Truthy(cfg.tryNextPort) then
      var listen := p => AsAttempt(appListen(p));
      assert listen(stop) == AsAttempt(appListen(stop));
      var s := PortSearch.StartServerOnAvailablePort(port, listen, Undefined, stop);
      if s.ending.Bound? then
        Running(s.attempts, OnListening(cfg, s.ending.port, ifaces))
      else
        Crashed(s.attempts, s.ending.fault)
    else
      match appListen(port)
      case Listens => Running([port], OnListening(cfg, port, ifaces))
      case Fails(code) => Crashed([port], PortSearch.ListenFault(code))
      case Throws(code) => Crashed([port], PortSearch.ListenFault(code))
  }

  /**
    With `tryNextPort` on, if the configured port and the `n - 1` after it are taken and the
    next one is free, the server ends up on `port + n` after trying exactly those ports.
   */
  lemma BusyPortsAreSkipped(cfg: Config, n: nat, appListen: int -> BindResult, ifaces: seq<Ipv4Addresses.Interface>)
    requires cfg.port.Num? && Truthy(cfg.tryNextPort)
    requires forall p :: cfg.port.n <= p < cfg.port.n + n ==> appListen(p) == Fails(PortSearch.AddressInUse)
    requires appListen(cfg.port.n + n) == Listens
    ensures var r := StartListening(cfg, appListen, ifaces, cfg.port.n + n);
      && r.attempts == seq(n + 1, i => cfg.port.n + i)
      && r == Running(r.attempts, OnListening(cfg, cfg.port.n + n, ifaces))
  {
    var r := StartListening(cfg, appListen, ifaces, cfg.port.n + n);
    ConsecutiveRun(cfg.port.n, n, r.attempts, p => appListen(p) == Fails(PortSearch.AddressInUse));
    assert appListen(cfg.port.n + n) == Listens;
    assert r.Running? && r.announcement == OnListening(cfg, cfg.port.n + n, ifaces);
  }

  /**
    A run of consecutive ports from `start` that stops at the first one not `busy`, no later than
    `start + n`, is exactly `start .. start + n` when the `n` ports before `start + n` are busy.
   */
  lemma ConsecutiveRun(start: int, n: nat, attempts: seq<int>, busy: int -> bool)
    requires |attempts| >= 1
    requires forall i :: 0 <= i < |attempts| ==> attempts[i] == start + i
    requires forall i :: 0 <= i < |attempts| - 1 ==> busy(attempts[i])
    requires !busy(attempts[|attempts| - 1]) && attempts[|attempts| - 1] <= start + n
    requires forall p :: start <= p < start + n ==> busy(p)
    ensures attempts == seq(n + 1, i => start + i)
  {
    var m := |attempts| - 1;
    assert attempts[m] == start + m;
    if m < n {
      assert false;
    }
  }

  /** A negative configured port is kept by the defaulting (it is truthy), and the first bind throws. */
  lemma NegativePortThrows(cfg: Config, appListen: int -> BindResult, ifaces: seq<Ipv4Addresses.Interface>)
    requires cfg.port.Num? && cfg.port.n < 0
    requires ChecksPortRange(appListen)
    ensures StartListening(cfg, appListen, ifaces, cfg.port.n)
      == Crashed([cfg.port.n], PortSearch.ListenFault(BadPort))
  {
    var r := StartListening(cfg, appListen, ifaces, cfg.port.n);
    if |r.attempts| > 1 {
      assert false;
    }
  }

  /**
    With `tryNextPort` on and a configured port of at most 65536, the search ends by port 65536
    at the latest, where the range check throws: 65536 is always an admissible proof bound.
   */
  lemma SearchEndsByPortLimit(cfg: Config, appListen: int -> BindResult, ifaces: seq<Ipv4Addresses.Interface>)
    requires cfg.port.Num? && Truthy(cfg.tryNextPort) && cfg.port.n <= MaxPort + 1
    requires ChecksPortRange(appListen)
    ensures var r := StartListening(cfg, appListen, ifaces, MaxPort + 1);
      var last := r.attempts[|r.attempts| - 1];
      && last <= MaxPort + 1
      && (last == MaxPort + 1 ==> r == Crashed(r.attempts, PortSearch.ListenFault(BadPort)))
  {
    assert appListen(MaxPort + 1) == Throws(BadPort);
  }
}
