/**
  `readDirectoryIndex`: resolve a request URL against the web root, refuse it unless the
  result lies in the web root's subtree (decided by a string-prefix test on the path text),
  read the directory and hand the listing, with a synthetic ".." first, to the renderer.
 */
module DirectoryIndex {
  import opened Results
  import opened PosixPaths

  /** What `fs.readdir` reports for a directory: its entry names, or an error code. */
  datatype ReadResult = Entries(names: seq<string>) | ReadError(code: string)

  /** The errors handed to `onerror`. */
  datatype IndexError =
    | InvalidDirectoryPath      // Error('invalid directory path')
    | ReadFailed(code: string)  // the `fs.readdir` error, forwarded unchanged

  /** The data given to the directory-index template: the display name and the entries. */
  datatype Listing = Listing(dirname: string, files: seq<string>)

  /** The one callback a call ends in: `onsuccess` with the listing or `onerror` with an error. */
  datatype Reply = Render(listing: Listing) | Fail(error: IndexError)

  /** A call's effects: the directory it read, if any, and the callback it ended in. */
  datatype IndexCall = IndexCall(readAt: Option<Path>, reply: Reply)

  /** `url.replace(/^\/+/, '')`: the URL without its leading slashes. */
  function StripLeadingSlashes(url: string): (r: string)
    ensures |r| <= |url| && r == url[|url| - |r|..]
    ensures forall i :: 0 <= i < |url| - |r| ==> url[i] == '/'
    ensures r == [] || r[0] != '/'
    decreases |url|
  {
    if |url| > 0 && url[0] == '/' then
      var r := StripLeadingSlashes(url[1..]);
      assert url[1..][|url| - 1 - |r|..] == url[|url| - |r|..];
      assert forall i :: 1 <= i < |url| - |r| ==> url[i] == url[1..][i - 1];
      r
    else
      url
  }

  /** The directory a request URL names: `path.resolve(webroot, './' + strippedUrl)`. */
  function Candidate(webroot: Path, url: string): (c: Path)
    ensures Canonical(webroot) ==> Canonical(c)
  {
    var c := Resolve(webroot, "./" + StripLeadingSlashes(url));
    assert Canonical(webroot) ==> Canonical(c) by {
      if Canonical(webroot) {
        ResolveIsCanonical(webroot, "./" + StripLeadingSlashes(url));
      }
    }
    c
  }

  /** The containment test as written: the text starts with `webroot + sep`, or equals `webroot`. */
  predicate Accepts(webroot: Path, dir: Path)
    ensures dir == webroot ==> Accepts(webroot, dir)
  {
    (ToString(webroot) + "/" <= ToString(dir)) || ToString(webroot) == ToString(dir)
  }

  /**
    What the test amounts to on segments: `dir` is in the subtree of `webroot`, except that
    a web root of "/" (whose `webroot + sep` is "//", which no normalised path starts with)
    admits only "/" itself.
   */
  predicate Within(webroot: Path, dir: Path) {
    webroot <= dir && (webroot == [] ==> dir == [])
  }

  /** `a + "/"` starts `b + "/"` exactly when `a + "/"` starts `b` or the two are equal. */
  lemma SeparatorPrefix(a: string, b: string)
    ensures (a + "/" <= b || a == b) <==> a + "/" <= b + "/"
  {
    if a + "/" <= b + "/" && |a| == |b| {
      assert a == (a + "/")[..|a|] == (b + "/")[..|b|] == b;
    }
    if a + "/" <= b {
      assert (b + "/")[..|a| + 1] == b[..|a| + 1];
    }
  }

  /** The string-prefix test accepts exactly the directories within the web root. */
  lemma AcceptsIffWithin(webroot: Path, dir: Path)
    requires Canonical(webroot) && Canonical(dir)
    ensures Accepts(webroot, dir) <==> Within(webroot, dir)
  {
    if dir != [] {
      assert Cat(dir) == "/" + dir[0] + Cat(dir[1..]);
      assert IsSegment(dir[0]);
      assert Cat(dir)[1] == dir[0][0];
      assert |Cat(dir)| >= 2;
    }
    if webroot == [] {
      assert ToString(webroot) + "/" == "//";
      if dir != [] {
        assert !("//" <= Cat(dir));
      }
    } else {
      assert IsSegment(webroot[0]);
      assert Cat(webroot) == "/" + webroot[0] + Cat(webroot[1..]);
      if dir == [] {
        assert |Cat(webroot)| >= 2;
      } else {
        SeparatorPrefix(Cat(webroot), Cat(dir));
        SeparatedPrefixIff(webroot, dir);
      }
    }
  }

  /** `readDirectoryIndex(webroot, url, onsuccess, onerror)`, with `fs.readdir` as the oracle `readdir`. */
  function ReadDirectoryIndex(webroot: Path, url: string, readdir: Path -> ReadResult): (c: IndexCall)
    requires Canonical(webroot)
    ensures c.readAt.Some? <==> Within(webroot, Candidate(webroot, url))
    ensures c.readAt.Some? ==> c.readAt.value == Candidate(webroot, url) && webroot <= c.readAt.value
    ensures c.readAt.None? ==> c.reply == Fail(InvalidDirectoryPath)
    ensures c.reply.Render? ==>
      && c.readAt.Some?
      && |c.reply.listing.files| >= 1
      && c.reply.listing.files[0] == ".."
      && readdir(c.readAt.value) == Entries(c.reply.listing.files[1..])
      && c.reply.listing.dirname == url
    ensures c.readAt.Some? && readdir(c.readAt.value).ReadError? ==>
      c.reply == Fail(ReadFailed(readdir(c.readAt.value).code))
  {
    var dir := Candidate(webroot, url);
    ResolveIsCanonical(webroot, "./" + StripLeadingSlashes(url));
    AcceptsIffWithin(webroot, dir);
    if Accepts(webroot, dir) then
      match readdir(dir)
      case ReadError(code) => IndexCall(Some(dir), Fail(ReadFailed(code)))
      case Entries(names) => IndexCall(Some(dir), Render(Listing(url, [".."] + names)))
    else
      IndexCall(None, Fail(InvalidDirectoryPath))
  }

  /** Leading slashes do not change the directory a URL names: "/a", "///a" and "a" name the same one. */
  lemma LeadingSlashesIrrelevant(webroot: Path, url: string)
    ensures Candidate(webroot, "/" + url) == Candidate(webroot, url)
  {
    assert ("/" + url)[1..] == url;
    assert StripLeadingSlashes("/" + url) == StripLeadingSlashes(url);
  }

  /** "./" splits into "." and an empty part. */
  lemma SplitDotSlash()
    ensures Split("./") == [".", ""]
  {
    assert "./" == "." + "/" + "";
    SplitAfterPart(".", "");
  }

  /** Walking "." and an empty part stays where it started. */
  lemma WalkDotEmpty(webroot: Path)
    ensures Walk(webroot, [".", ""]) == webroot
  {
    WalkCons(webroot, ".", [""]);
    assert [".", ""] == ["."] + [""];
    WalkCons(webroot, "", []);
    assert [""] == [""] + [];
  }

  /** "./" resolves to the base itself. */
  lemma ResolveDotSlash(webroot: Path)
    ensures Resolve(webroot, "./") == webroot
  {
    SplitDotSlash();
    WalkDotEmpty(webroot);
  }

  /** A URL made only of slashes ("", "/", "//", ...) names the web root itself. */
  lemma WebrootCandidate(webroot: Path, url: string)
    requires forall i :: 0 <= i < |url| ==> url[i] == '/'
    ensures Candidate(webroot, url) == webroot
  {
    assert StripLeadingSlashes(url) == "";
    assert "./" + StripLeadingSlashes(url) == "./";
    ResolveDotSlash(webroot);
  }

  /** The web root itself is always read, whatever the web root is. */
  lemma WebrootAccepted(webroot: Path, url: string, readdir: Path -> ReadResult)
    requires Canonical(webroot)
    requires forall i :: 0 <= i < |url| ==> url[i] == '/'
    ensures ReadDirectoryIndex(webroot, url, readdir).readAt == Some(webroot)
  {
    WebrootCandidate(webroot, url);
  }

  /** On a successful read the listing is ".." then the entries in read order, even for an empty directory. */
  lemma ListingPrependsParent(webroot: Path, url: string, readdir: Path -> ReadResult)
    requires Canonical(webroot)
    requires Within(webroot, Candidate(webroot, url))
    requires readdir(Candidate(webroot, url)).Entries?
    ensures var c := ReadDirectoryIndex(webroot, url, readdir);
      && c.reply.Render?
      && c.reply.listing.files == [".."] + readdir(Candidate(webroot, url)).names
      && |c.reply.listing.files| == |readdir(Candidate(webroot, url)).names| + 1
  {
  }

  /** A sibling sharing a textual prefix with the web root ("/var/www-other" for "/var/www") is refused. */
  lemma SiblingRefused()
    ensures !Accepts(["var", "www"], ["var", "www-other"])
  {
    AcceptsIffWithin(["var", "www"], ["var", "www-other"]);
    assert ["var", "www"][1] != ["var", "www-other"][1];
  }

  /** "/../x" loses only its leading slash. */
  lemma StripParentUrl(x: string)
    requires IsSegment(x)
    ensures StripLeadingSlashes("/../" + x) == ".." + "/" + x
  {
    assert ("/../" + x)[1..] == ".." + "/" + x;
  }

  /** "./../x" splits into ".", ".." and "x". */
  lemma SplitParentUrl(x: string)
    requires IsSegment(x)
    ensures Split("./" + (".." + "/" + x)) == [".", "..", x]
  {
    var rel := ".." + "/" + x;
    assert "./" + rel == "." + "/" + rel;
    SplitAfterPart(".", rel);
    SplitAfterPart("..", x);
    SplitSinglePart(x);
  }

  /** Walking one segment descends into it. */
  lemma WalkIntoSegment(parent: Path, x: string)
    requires IsSegment(x)
    ensures Walk(parent, [x]) == parent + [x]
  {
    WalkCons(parent, x, []);
    assert [x] == [x] + [];
  }

  /** Walking "..", then a part, climbs one level before taking that part. */
  lemma WalkUpThenInto(webroot: Path, x: string)
    requires webroot != []
    ensures Walk(webroot, ["..", x]) == Walk(webroot[..|webroot| - 1], [x])
  {
    WalkCons(webroot, "..", [x]);
    assert ["..", x] == [".."] + [x];
  }

  /** A leading "." part changes nothing. */
  lemma WalkDotFirst(webroot: Path, x: string)
    ensures Walk(webroot, [".", "..", x]) == Walk(webroot, ["..", x])
  {
    WalkCons(webroot, ".", ["..", x]);
    assert [".", "..", x] == ["."] + ["..", x];
  }

  /** Walking ".", ".." and a segment lands in a sibling of the base, named by that segment. */
  lemma WalkParentUrl(webroot: Path, x: string)
    requires webroot != [] && IsSegment(x)
    ensures Walk(webroot, [".", "..", x]) == webroot[..|webroot| - 1] + [x]
  {
    WalkIntoSegment(webroot[..|webroot| - 1], x);
    WalkUpThenInto(webroot, x);
    WalkDotFirst(webroot, x);
  }

  /** "/../x" climbs one level above the web root and descends into "x": under "/var/www" it names "/var/x". */
  lemma TraversalCandidate(webroot: Path, x: string)
    requires webroot != [] && IsSegment(x)
    ensures Candidate(webroot, "/../" + x) == webroot[..|webroot| - 1] + [x]
  {
    StripParentUrl(x);
    SplitParentUrl(x);
    WalkParentUrl(webroot, x);
    assert ("./" + (".." + "/" + x))[0] != '/';
  }

  /** A URL that climbs out of the web root into a sibling directory is refused before any read. */
  lemma TraversalRefused(webroot: Path, x: string, readdir: Path -> ReadResult)
    requires Canonical(webroot) && webroot != []
    requires IsSegment(x) && x != webroot[|webroot| - 1]
    ensures ReadDirectoryIndex(webroot, "/../" + x, readdir) == IndexCall(None, Fail(InvalidDirectoryPath))
  {
    TraversalCandidate(webroot, x);
    var parent := webroot[..|webroot| - 1];
    assert (parent + [x])[|parent|] != webroot[|parent|];
    assert !Within(webroot, parent + [x]);
  }

  /** With "/" as the web root only "/" itself is listed: every subdirectory is refused. */
  lemma RootWebrootListsOnlyItself(url: string, readdir: Path -> ReadResult)
    ensures ReadDirectoryIndex([], url, readdir).readAt.Some? <==> Candidate([], url) == []
  {
  }
}
