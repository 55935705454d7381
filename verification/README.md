# dev-server core, modelled in Dafny

A model of the small development HTTP server `dev-server`. The server serves a web root as
static files. For GET requests that match no file it falls back to an HTML listing of the
directory the URL names. It starts on the first free port at or above the configured one.
The model covers:

- **`readDirectoryIndex`** (`directory_index.dfy`). The URL is resolved against the web root.
  A string-prefix test rejects anything outside the web root. Otherwise the directory is read
  (`fs.readdir` is a parameter), and the listing is `..` followed by the entries, or an error.
- **`startServerOnAvailablePort`** (`port_search.dfy`). Call `listen(port)`. On EADDRINUSE,
  start over at `port + 1`. Any other error, or a result that is not a server, goes to
  `onerror` when that is a function; otherwise it is thrown. An exception thrown by
  `listen` itself (Node's range check on the port) is not caught and bypasses `onerror`.
- **`getAllIPv4Address`** (`ipv4_addresses.dfy`). The IPv4 addresses of every interface, in
  interface and then entry order. The list is reversed unless `127.0.0.1` comes first.
  There is a functional definition and a loop method proved equal to it.
- **`start` and `listen`** (`server.dfy`):
  - option normalisation, with JavaScript truthiness, `in` and `typeof` rules;
  - writing the normalised options back into the options object;
  - the GET-only directory-listing fallback;
  - the choice between searching for a port and binding once;
  - the host list, log lines and completion-callback arguments reported once the server
    listens.

Supporting modules:

- `results.dfy`: `Option`/`Result`.
- `js_values.dfy`: the JavaScript values that reach the options, truthiness, and property lookup.
- `js_strings.dfy`: `trim`, ASCII `toUpperCase`, and decimal formatting of numbers.
- `posix_paths.dfy`: absolute POSIX paths as segment lists, with `split('/')`, `join('/')`,
  `path.resolve` and the string form of a path.

`start` runs as normalisation (`Server.NormalizeOptions`), then the middleware stack, of which
the directory fallback is modelled (`Server.DirectoryFallback`), then binding
(`Server.StartListening`). The program's environment is given as arguments:

- the current directory;
- what `fs.readdir` returns for each directory;
- what `app.listen` leads to on each port;
- the interfaces `os.networkInterfaces()` reports.

A web root of "/" is modelled as written. Its separator-terminated prefix is "//", so only "/"
itself passes the containment test, and no subdirectory of "/" is ever listed
(`DirectoryIndex.RootWebrootListsOnlyItself`).

## Model

| member | source | states |
|---|---|---|
| DirectoryIndex.StripLeadingSlashes | lib/readDirectoryIndex.js:17 | The result is what remains of the URL after a run of leading '/' characters, and it does not itself start with '/'. |
| DirectoryIndex.Candidate | lib/readDirectoryIndex.js:17 | The directory a URL names is resolved against the web root and is a normalised path whenever the web root is. |
| DirectoryIndex.Accepts | lib/readDirectoryIndex.js:16-21 | The containment test as written on path text; it always admits the web root itself. Its meaning on segments is AcceptsIffWithin. |
| DirectoryIndex.LeadingSlashesIrrelevant | lib/readDirectoryIndex.js:17 | Prefixing a URL with '/' does not change the directory it names. |
| DirectoryIndex.WebrootCandidate | lib/readDirectoryIndex.js:17 | A URL made only of slashes names the web root itself. |
| DirectoryIndex.AcceptsIffWithin | lib/readDirectoryIndex.js:16-21 | For normalised paths, the textual test (starts with web root plus separator, or equals the web root) holds exactly when the directory is the web root or lies below it segment-wise; for the root "/", only "/" itself. |
| DirectoryIndex.ReadDirectoryIndex | lib/readDirectoryIndex.js:15-37 | A directory is read exactly when the resolved URL lies within the web root, and then it is that resolved path. Otherwise the call ends with "invalid directory path". A successful read renders the URL as display name and ".." followed by the entries in read order. A read error is forwarded. |
| DirectoryIndex.WebrootAccepted | lib/readDirectoryIndex.js:16-22 | Whatever the web root, a slash-only URL reads the web root itself. |
| DirectoryIndex.ListingPrependsParent | lib/readDirectoryIndex.js:26-30 | On success the listing's entries are ".." followed by exactly the directory's entries, even for an empty directory. |
| DirectoryIndex.SiblingRefused | lib/readDirectoryIndex.js:16-21 | "/var/www-other" is refused under web root "/var/www", although it shares a textual prefix. |
| DirectoryIndex.TraversalCandidate | lib/readDirectoryIndex.js:17-20 | "/../x" resolves to x beside the web root, one level up. |
| DirectoryIndex.TraversalRefused | lib/readDirectoryIndex.js:17-35 | Such a sibling (x is not the web root's own name) is refused with "invalid directory path" before any read. |
| DirectoryIndex.RootWebrootListsOnlyItself | lib/readDirectoryIndex.js:16-21 | With web root "/", a read happens exactly when the URL resolves to "/". |
| PortSearch.HandleError | lib/startServerOnAvailablePort.js:8-14 | A fault is reported to onerror exactly when onerror is a function, and is thrown otherwise, unchanged. |
| PortSearch.Conclude | lib/startServerOnAvailablePort.js:7-25 | An outcome other than EADDRINUSE ends the search, bound on that port exactly when the server listens. An error event carries its own code and a non-server the TypeError, each reported exactly when onerror is a function. An exception from listen is always thrown, never reported. |
| PortSearch.StartServerOnAvailablePort | lib/startServerOnAvailablePort.js:6-27 | Ports are tried consecutively upwards from the start. Every port but the last was EADDRINUSE, the last was not, and the ending is that last port's outcome. |
| PortSearch.ConsecutiveInUse | lib/startServerOnAvailablePort.js:17-19 | If n ports are busy and the next listens, exactly those n+1 ports are tried in order, and the server is bound on the last. |
| PortSearch.NoRetryAfterOtherOutcome | lib/startServerOnAvailablePort.js:16-25 | An outcome other than EADDRINUSE on the first port means exactly one attempt. |
| PortSearch.InvalidListenerEndsSearch | lib/startServerOnAvailablePort.js:24-25 | A listen result that is not a server ends the search at once with the TypeError. |
| PortSearch.ThrowBypassesOnerror | lib/startServerOnAvailablePort.js:7-19 | After n busy ports, an exception from listen on the next one ends the search there with that exception thrown, even when onerror is a function. |
| PortSearch.StopIrrelevant | lib/startServerOnAvailablePort.js:6-27 | The search result does not depend on the termination bound used to reason about it. |
| PortSearch.NoUpperBound | lib/startServerOnAvailablePort.js:17-19 | There is no ceiling: for every n, some listen function makes the search try n+1 ports. |
| Ipv4Addresses.GetAllIPv4Address | lib/getAllIPv4Address.js:8-28 | The loops push the IPv4 addresses in interface order, then entry order, and the conditional reversal follows. The result equals the functional definition. |
| Ipv4Addresses.PushIPv4 | lib/getAllIPv4Address.js:15-19 | The inner loop appends the addresses of exactly the IPv4 entries of one interface, in entry order. |
| Ipv4Addresses.IPv4Of | lib/getAllIPv4Address.js:15-19 | One interface contributes at most one address per entry. Which ones: IPv4OfMembership, IPv4OfAllIPv4, IPv4OfNoIPv4. |
| Ipv4Addresses.Collect | lib/getAllIPv4Address.js:13-21 | The addresses pushed by the loops, interface by interface. Its properties are CollectAppend and CollectMembership. |
| Ipv4Addresses.Order | lib/getAllIPv4Address.js:23-25 | The reordering step is a permutation of the collected addresses: same length, same multiset. |
| Ipv4Addresses.AllIPv4Addresses | lib/getAllIPv4Address.js:8-28 | An address is reported exactly when some interface has an IPv4 entry with it, and each address is reported exactly as often as it was collected (the same multiset). |
| Ipv4Addresses.Reverse | lib/getAllIPv4Address.js:23-25 | The reversal keeps the length and puts element i at position n-1-i. |
| Ipv4Addresses.IPv4OfAppend | lib/getAllIPv4Address.js:15-19 | The addresses of two runs of entries are those of the first run followed by those of the second. |
| Ipv4Addresses.CollectAppend | lib/getAllIPv4Address.js:13-21 | The addresses of two runs of interfaces are those of the first run followed by those of the second. |
| Ipv4Addresses.IPv4OfAllIPv4 | lib/getAllIPv4Address.js:15-19 | If every entry is IPv4, every address is kept, in order and with duplicates. |
| Ipv4Addresses.IPv4OfNoIPv4 | lib/getAllIPv4Address.js:16-18 | Entries of other families contribute nothing. |
| Ipv4Addresses.IPv4OfMembership | lib/getAllIPv4Address.js:15-19 | An address is collected from an interface's entries exactly when some IPv4 entry carries it. |
| Ipv4Addresses.CollectMembership | lib/getAllIPv4Address.js:13-21 | An address is collected exactly when some interface has an IPv4 entry with that address. |
| Ipv4Addresses.ReverseInvolution | lib/getAllIPv4Address.js:24 | Reversing twice restores the list. |
| Ipv4Addresses.ReversePermutes | lib/getAllIPv4Address.js:24 | Reversal neither adds, drops nor duplicates an address. |
| Ipv4Addresses.LoopbackAtEitherEndFirst | lib/getAllIPv4Address.js:23-25 | When 127.0.0.1 is collected first or last, it is reported first. |
| Ipv4Addresses.OrderExamples | lib/getAllIPv4Address.js:23-25 | [10.0.0.5, 127.0.0.1] is reported as [127.0.0.1, 10.0.0.5]; [127.0.0.1, 10.0.0.5] is kept. |
| JsValues.Truthy | lib/server.js:43-48 | JavaScript truthiness as every defaulting rule uses it: undefined, null, false, 0 and "" are falsy, all else truthy. |
| JsStrings.TrimStart | lib/server.js:54 | The result is a suffix of the input. Only whitespace is removed, and the result does not start with whitespace. |
| JsStrings.TrimEnd | lib/server.js:54 | The result is a prefix of the input. Only whitespace is removed, and the result does not end with whitespace. |
| JsStrings.Trim | lib/server.js:54 | The trimmed host is the given one's middle: a contiguous slice preceded and followed only by whitespace, which itself neither starts nor ends with whitespace. |
| JsStrings.TrimIdempotent | lib/server.js:54 | Trimming a trimmed host changes nothing. |
| JsStrings.TrimEmptyIffBlank | lib/server.js:54 | A host trims to "" exactly when all of it is whitespace. |
| JsStrings.ToUpper | lib/server.js:78 | Upper-casing keeps the length and leaves no lower-case letter. Each lower-case letter becomes its capital, and every other character is kept in place. |
| JsStrings.NatToDecimal | lib/server.js:126 | A port prints as a non-empty run of digits with no leading zero. |
| JsStrings.IntToDecimal | lib/server.js:126 | A port prints with a minus sign exactly when it is negative, followed by digits that read back as its magnitude. |
| JsStrings.DecimalRoundTrip | lib/server.js:126 | Reading back the printed port gives the port. |
| PosixPaths.ToString | lib/readDirectoryIndex.js:16-21 | The string form of a resolved path: "/" for the root, otherwise each segment preceded by '/'. Its properties are ResolveToString, SeparatedPrefixIff and ToStringInjective. |
| PosixPaths.Split | lib/readDirectoryIndex.js:17 | Splitting on '/' gives at least one part, and no part contains '/'. |
| PosixPaths.Step | lib/readDirectoryIndex.js:17 | One part either climbs (the result is a prefix of the base) or descends into exactly that part, and a separator-free part keeps a normalised path normalised. |
| PosixPaths.Walk | lib/readDirectoryIndex.js:17 | Walking parts from a base adds at most one segment per part. |
| PosixPaths.Resolve | lib/server.js:48 | The resolved path has at most one segment per part of the relative path beyond the base, or per part of an absolute path alone. |
| PosixPaths.AbsoluteIgnoresBase | lib/readDirectoryIndex.js:17 | An absolute path resolves to the same place against every base. |
| PosixPaths.JoinSplit | lib/readDirectoryIndex.js:17 | Joining the parts of a split with '/' gives back the string. |
| PosixPaths.SplitJoin | lib/readDirectoryIndex.js:17 | Splitting a join of separator-free parts gives back the parts. |
| PosixPaths.WalkKeepsCanonical | lib/readDirectoryIndex.js:17 | Resolving relative parts from a normalised directory stays normalised. |
| PosixPaths.ResolveIsCanonical | lib/server.js:48 | path.resolve against a normalised base returns a normalised absolute path. |
| PosixPaths.WalkCanonical | lib/readDirectoryIndex.js:17 | Walking normalised segments descends into exactly those segments. |
| PosixPaths.ResolveToString | lib/server.js:51 | Resolving the string form of a resolved web root gives the web root back. |
| PosixPaths.SeparatedPrefixIff | lib/readDirectoryIndex.js:16-21 | The separator-terminated string form of w is a prefix of that of d exactly when the segments of w are a prefix of those of d. |
| PosixPaths.ToStringInjective | lib/readDirectoryIndex.js:21 | Distinct normalised paths have distinct string forms, so the equality test compares directories. |
| Server.WebrootOption | lib/server.js:48 | The web root is a normalised absolute path. A falsy option gives the current directory, and a string is resolved against it. |
| Server.HostOptionTrims | lib/server.js:46-54 | Trimming is also applied to the default host, and for "0.0.0.0" it changes nothing. |
| Server.Defaults | lib/server.js:43-48 | Each option follows its default rule. Port: the given value if truthy, else 8080. tryNextPort: the given value if the key is present, else true. index: a string, else "index.html". host: a trimmed string, else "0.0.0.0". printAccessLog: a boolean, else false. printLog: the truthiness of the given value if present, else true. |
| Server.WriteBack | lib/server.js:50-63 | The options object gains exactly the seven normalised keys with their values, and keeps every other key unchanged. |
| Server.OptionsObject | lib/server.js:38-40 | Reading any option from the object `start` works on reads it from the given options, or gives undefined when none were given. |
| Server.NormalizeOptions | lib/server.js:38-63 | For an options object or a falsy options value: a falsy value acts as {}. The call fails exactly when the web root option is truthy but not a string. Otherwise the web root is normalised, the port is truthy, every option follows its default rule, and the options object holds the normalised values alongside its other keys. |
| Server.NormalizeFixpoint | lib/server.js:38-63 | An options object that already holds a configuration's normalised values, with that configuration written back, normalises to exactly that configuration. |
| Server.NormalizeIdempotent | lib/server.js:38-63 | Normalising the options object a normalisation produced gives the same configuration again. |
| Server.BlankHostMeansAllInterfaces | lib/server.js:123-129 | A whitespace-only host trims to "". The server then reports every discovered IPv4 address, as with "0.0.0.0". |
| Server.IsGet | lib/server.js:78 | The gate only admits methods that trim to three characters, and admits "GET" and "get" with any surrounding whitespace. |
| Server.IsGetIff | lib/server.js:78 | The gate admits exactly the trimmed methods "get" in any letter case. |
| Server.DirectoryFallback | lib/server.js:77-89 | A directory is read only for GET and only within the web root. HTML is sent exactly when that read succeeds, listing ".." and the entries under the request URL. Every other request is passed on. |
| Server.AddressLines | lib/server.js:131-134 | One address line per host, in host order, each "- " then the host's URL. |
| Server.AddressLinesDistinguishHosts | lib/server.js:131-134 | Two address lines are equal exactly when their hosts are. |
| Server.AddressUrl | lib/server.js:126 | The URL "http://host:port/index". Its property is AddressUrlDeterminesHost. |
| Server.AddressUrlDeterminesHost | lib/server.js:126-133 | For a fixed port and index, distinct hosts give distinct address lines. |
| Server.StartupLog | lib/server.js:118-136 | Without printLog nothing is logged. Otherwise "Server Started" and "Webroot: …" come first. For a single configured host, "Address: " and its URL follow. Otherwise "Addresses:" follows, then one "- " line per host with that host's URL, in host order. |
| Server.OnListening | lib/server.js:112-139 | The callback receives the bound port, the normalised web root and options. Hosts: the configured host alone when it is neither "" nor "0.0.0.0", else all discovered IPv4 addresses. The log is StartupLog of those hosts. |
| Server.LogNamesEveryHost | lib/server.js:118-136 | With logging on, every reported host's address appears in the log. |
| Server.AsAttempt | lib/server.js:93-95 | A bind that returns returns a server; only its EADDRINUSE error moves the search on, and an exception from `app.listen` stays an exception. |
| Server.StartListening | lib/server.js:91-98 | With a truthy tryNextPort, ports are tried upwards past busy ones, and the search stops on a port that is not busy. Without it, exactly the configured port is tried. The server runs exactly when the last port listens, announced as OnListening describes. Otherwise the last port's error or exception is thrown. |
| Server.BusyPortsAreSkipped | lib/server.js:92-95 | With tryNextPort, n busy ports followed by a free one give exactly n+1 attempts and a server running on the free one. |
| Server.NegativePortThrows | lib/server.js:43-97 | A negative configured port is kept by the defaulting, and the first bind throws Node's port-range error: one attempt, after which `start` throws that error to its caller, with or without tryNextPort. |
| Server.SearchEndsByPortLimit | lib/server.js:92-95 | With tryNextPort and a start of at most 65536, the search never passes port 65536, and reaching it means the crash with Node's port-range error. |

## Left out

- Express itself, `express.static` and the `serveStaticOptions` passed to it are not modelled. Neither is the access-log middleware (lines 66-71 of lib/server.js) or the `logger` package; the log is the list of lines it would print.
- The EJS template and `ejs.render` are left out. The model stops at the data given to the template (the display name and the entries).
- Asynchrony and events are left out. `fs.readdir`, `app.listen`'s 'error' event and the listening callback are functions given as parameters, and one call's effects are returned as a value.
- `process.cwd()` and `os.networkInterfaces()` are parameters. The enumeration order of the interface map is the order of the given sequence, and inherited properties are not modelled.
- The `onsuccess &&`, `onerror &&` and `callback &&` guards are left out. The model returns which callback is reached, not whether it exists.
- Node's port-range check in `net.Server.listen` is not part of this model. `Server.ChecksPortRange` states it as a hypothesis: every port outside 0-65535 throws ERR_SOCKET_BAD_PORT. Only the lemmas about out-of-range ports assume it.
- JavaScript numbers are modelled as integers only. NaN, fractions and a port given as a string are not modelled. With a string, `port + 1` would concatenate.
- Server.NormalizeOptions: options are modelled as an object or a falsy value, as the `ServerOptions` parameter type documents. A truthy primitive such as a string, number or `true` is not modelled; for it, `'tryNextPort' in options` throws a TypeError.
- Server.StartListening: requires the normalised port to be a number, as the option's documentation types it. It also requires a free port at or above it when tryNextPort is on. The search has no upper bound, and the ghost `stop` exists only to prove termination; its choice does not change the result (`PortSearch.StopIrrelevant`).
- JsStrings.ToUpper: only ASCII letters are upper-cased. Full Unicode case mapping is not modelled.
- Windows path separators and drive letters are left out. Paths are POSIX paths.
- A failing `fs.readdir` is modelled by an error code only; the error object is not modelled.
