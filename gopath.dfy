/** Lexical path handling of Go's standard `path` package, as rubber/consumer.go
    uses it: `path.Join("/", index, path)` builds the request path and
    `path.Join("/", urlPath)` re-roots it before the URL is formatted.

    A path is split at every '/' into elements; `Clean` scans the elements
    left to right, dropping empty and "." elements and letting ".." cancel the
    element before it (at the root of a rooted path it is dropped; at the start
    of a relative path it is kept).  `Join` joins its non-empty tail with '/'
    and cleans the result. */
module GoPath {

  const Slash: char := '/'

  /** strings.Split(s, "/"): the pieces of s between slashes, never empty as a list. */
  function Split(s: string): (elems: seq<string>)
    ensures |elems| >= 1
    ensures forall i :: 0 <= i < |elems| ==> Slash !in elems[i]
  {
    if s == [] then [""]
    else
      var rest := Split(s[1..]);
      if s[0] == Slash then [""] + rest
      else [[s[0]] + rest[0]] + rest[1..]
  }

  /** strings.Join(elems, "/"). */
  function JoinElements(elems: seq<string>): string
  {
    if |elems| == 0 then ""
    else if |elems| == 1 then elems[0]
    else elems[0] + [Slash] + JoinElements(elems[1..])
  }

  /** One element of Clean's scan over the elements, given what has been kept so far. */
  function Push(kept: seq<string>, elem: string, rooted: bool): seq<string>
  {
    if elem == "" || elem == "." then kept
    else if elem == ".." then
      if |kept| > 0 && kept[|kept| - 1] != ".." then kept[..|kept| - 1]
      else if rooted then kept
      else kept + [".."]
    else kept + [elem]
  }

  /** Clean's scan: every element of elems pushed in turn onto kept. */
  function Resolve(kept: seq<string>, elems: seq<string>, rooted: bool): seq<string>
    decreases elems
  {
    if elems == [] then kept
    else Resolve(Push(kept, elems[0], rooted), elems[1..], rooted)
  }

  /** An element a clean path may hold: not empty, not "." or "..", no slash. */
  predicate IsElement(e: string)
  {
    e != "" && e != "." && e != ".." && Slash !in e
  }

  predicate AllElements(elems: seq<string>)
  {
    forall i :: 0 <= i < |elems| ==> IsElement(elems[i])
  }

  /** A rooted path in the form Clean returns: "/" or "/e1/.../en" with proper elements. */
  predicate IsCleanRooted(p: string)
  {
    |p| >= 1 && p[0] == Slash && (|p| == 1 || AllElements(Split(p[1..])))
  }

  predicate IsRooted(p: string)
  {
    |p| > 0 && p[0] == Slash
  }

  /** path.Clean: the shortest path lexically equivalent to p. */
  function Clean(p: string): (r: string)
    ensures IsRooted(p) ==> IsCleanRooted(r)
    ensures !IsRooted(p) ==> r != "" && !IsRooted(r)
  {
    var rooted := IsRooted(p);
    var kept := Resolve([], Split(p), rooted);
    ResolveKeepsElements([], Split(p), rooted);
    if rooted then
      RenderRootedIsClean(kept);
      [Slash] + JoinElements(kept)
    else if kept == [] then "."
    else
      JoinElementsUnrooted(kept);
      JoinElements(kept)
  }

  /** path.Join: the non-empty tail of elems, from its first non-empty element, joined with '/' and cleaned; "" if all are empty. */
  function Join(elems: seq<string>): (r: string)
    ensures (exists i :: 0 <= i < |elems| && elems[i] != "") <==> r != ""
  {
    if elems == [] then ""
    else if elems[0] == "" then Join(elems[1..])
    else
      assert elems[0] != "" && |elems| > 0;
      Clean(JoinElements(elems))
  }

  /** The request path of consumer.go line 56: path.Join("/", index, path).
      Whatever index and path hold, it is rooted and clean: no empty, "." or
      ".." element, so it never rises above "/". */
  function RequestPath(index: string, path: string): (r: string)
    ensures IsCleanRooted(r)
  {
    JoinThree("/", index, path);
    Join(["/", index, path])
  }

  /** The path formatted into the URL at consumer.go line 95: path.Join("/", urlPath).
      Whatever urlPath holds, it is rooted and clean. */
  function Reroot(urlPath: string): (r: string)
    ensures IsCleanRooted(r)
  {
    assert JoinElements(["/", urlPath]) == "/" + "/" + urlPath by {
      assert ["/", urlPath][1..] == [urlPath];
    }
    assert IsRooted(JoinElements(["/", urlPath]));
    Join(["/", urlPath])
  }

  // ---------------------------------------------------------------------------
  // Split and JoinElements

  lemma {:induction false} SplitWithoutSlash(s: string)
    requires Slash !in s
    ensures Split(s) == [s]
  {
    if s != [] {
      assert s[0] in s;
      assert Slash !in s[1..] by {
        forall c | c in s[1..] ensures c != Slash { assert c in s; }
      }
      SplitWithoutSlash(s[1..]);
      assert s == [s[0]] + s[1..];
    }
  }

  /** Splitting at a slash splits the two sides independently. */
  lemma {:induction false} SplitAppend(a: string, b: string)
    ensures Split(a + [Slash] + b) == Split(a) + Split(b)
  {
    if a == [] {
      assert a + [Slash] + b == [Slash] + b;
      assert ([Slash] + b)[1..] == b;
    } else {
      assert (a + [Slash] + b)[1..] == a[1..] + [Slash] + b;
      SplitAppend(a[1..], b);
    }
  }

  /** JoinElements undoes Split. */
  lemma {:induction false} JoinSplit(s: string)
    ensures JoinElements(Split(s)) == s
  {
    if s != [] {
      JoinSplit(s[1..]);
      var rest := Split(s[1..]);
      if s[0] == Slash {
        assert ([""] + rest)[1..] == rest;
        assert s == [Slash] + s[1..];
      } else {
        var elems := [[s[0]] + rest[0]] + rest[1..];
        if |rest| == 1 {
          assert s == [s[0]] + s[1..];
        } else {
          assert elems[1..] == rest[1..];
          assert s == [s[0]] + s[1..];
        }
      }
    }
  }

  /** Split undoes JoinElements on slash-free elements. */
  lemma {:induction false} SplitJoin(elems: seq<string>)
    requires |elems| >= 1
    requires forall i :: 0 <= i < |elems| ==> Slash !in elems[i]
    ensures Split(JoinElements(elems)) == elems
  {
    if |elems| == 1 {
      SplitWithoutSlash(elems[0]);
    } else {
      SplitJoin(elems[1..]);
      SplitAppend(elems[0], JoinElements(elems[1..]));
      SplitWithoutSlash(elems[0]);
      assert elems == [elems[0]] + elems[1..];
    }
  }

  lemma JoinThree(a: string, b: string, c: string)
    ensures JoinElements([a, b, c]) == a + [Slash] + b + [Slash] + c
  {
    assert [a, b, c][1..] == [b, c];
    assert [b, c][1..] == [c];
    assert JoinElements([b, c]) == b + [Slash] + c;
  }

  lemma JoinElementsUnrooted(elems: seq<string>)
    requires |elems| >= 1 && elems[0] != "" && Slash !in elems[0]
    ensures JoinElements(elems) != "" && !IsRooted(JoinElements(elems))
  {
    assert elems[0][0] in elems[0];
    if |elems| > 1 {
      assert JoinElements(elems)[..|elems[0]|] == elems[0];
    }
    assert JoinElements(elems)[0] == elems[0][0];
  }

  // ---------------------------------------------------------------------------
  // Resolve

  /** Resolving a concatenation resolves the two parts in turn. */
  lemma {:induction false} ResolveAppend(kept: seq<string>, a: seq<string>, b: seq<string>, rooted: bool)
    ensures Resolve(kept, a + b, rooted) == Resolve(Resolve(kept, a, rooted), b, rooted)
    decreases a
  {
    if a == [] {
      assert a + b == b;
    } else {
      assert (a + b)[1..] == a[1..] + b;
      ResolveAppend(Push(kept, a[0], rooted), a[1..], b, rooted);
    }
  }

  /** Proper elements are kept as they are. */
  lemma {:induction false} ResolveProper(kept: seq<string>, elems: seq<string>, rooted: bool)
    requires AllElements(elems)
    ensures Resolve(kept, elems, rooted) == kept + elems
    decreases elems
  {
    if elems != [] {
      assert IsElement(elems[0]);
      ResolveProper(kept + [elems[0]], elems[1..], rooted);
      assert kept + [elems[0]] + elems[1..] == kept + elems;
    }
  }

  /** Without "..", what was kept before is never touched. */
  lemma ResolveWithoutDotDot(kept: seq<string>, elems: seq<string>, rooted: bool)
    requires ".." !in elems
    ensures Resolve(kept, elems, rooted) == kept + Resolve([], elems, rooted)
  {
    ResolveUnder(kept, [], elems, rooted);
    assert kept + [] == kept;
  }

  lemma {:induction false} ResolveUnder(pre: seq<string>, kept: seq<string>, elems: seq<string>, rooted: bool)
    requires ".." !in elems
    ensures Resolve(pre + kept, elems, rooted) == pre + Resolve(kept, elems, rooted)
    decreases elems
  {
    if elems != [] {
      var e := elems[0];
      assert e in elems;
      assert ".." !in elems[1..] by {
        forall x | x in elems[1..] ensures x != ".." { assert x in elems; }
      }
      PushUnder(pre, kept, e, rooted);
      ResolveUnder(pre, Push(kept, e, rooted), elems[1..], rooted);
    }
  }

  lemma PushUnder(pre: seq<string>, kept: seq<string>, e: string, rooted: bool)
    requires e != ".."
    ensures Push(pre + kept, e, rooted) == pre + Push(kept, e, rooted)
  {
    assert pre + kept + [e] == pre + (kept + [e]);
  }

  /** What Clean's scan may hold: non-empty, not ".", slash-free elements, and
      for a rooted path no ".." either. */
  predicate Scanned(kept: seq<string>, rooted: bool)
  {
    (forall i :: 0 <= i < |kept| ==> kept[i] != "" && kept[i] != "." && Slash !in kept[i]) &&
    (rooted ==> AllElements(kept))
  }

  /** Scanning keeps only what Scanned allows, so a rooted scan never holds "..". */
  lemma {:induction false} ResolveKeepsElements(kept: seq<string>, elems: seq<string>, rooted: bool)
    requires forall i :: 0 <= i < |elems| ==> Slash !in elems[i]
    requires Scanned(kept, rooted)
    ensures Scanned(Resolve(kept, elems, rooted), rooted)
    decreases elems
  {
    if elems != [] {
      assert Slash !in elems[0];
      var next := Push(kept, elems[0], rooted);
      assert Scanned(next, rooted);
      ResolveKeepsElements(next, elems[1..], rooted);
    }
  }

  // ---------------------------------------------------------------------------
  // Clean and Join

  lemma RenderRootedIsClean(kept: seq<string>)
    requires AllElements(kept)
    ensures IsCleanRooted([Slash] + JoinElements(kept))
  {
    var p := [Slash] + JoinElements(kept);
    assert p[1..] == JoinElements(kept);
    if |p| > 1 {
      SplitJoin(kept);
    }
  }

  /** An extra leading slash changes nothing. */
  lemma CleanLeadingSlash(q: string)
    requires IsRooted(q)
    ensures Clean([Slash] + q) == Clean(q)
  {
    SplitAppend([], q);
    assert [] + [Slash] + q == [Slash] + q;
    assert Split([Slash] + q) == [""] + Split(q);
  }

  /** A path already in clean rooted form is its own cleaning. */
  lemma CleanFixesCleanRooted(p: string)
    requires IsCleanRooted(p)
    ensures Clean(p) == p
  {
    var q := p[1..];
    assert p == [] + [Slash] + q;
    SplitAppend([], q);
    assert Split(p) == [""] + Split(q);
    if |p| == 1 {
      assert q == [];
      assert Split(p) == ["", ""];
      assert ["", ""][1..] == [""] && [""][1..] == [];
      assert Resolve([], Split(p), true) == [];
    } else {
      ResolveProper([], Split(q), true);
      assert Resolve([], Split(p), true) == Split(q);
      JoinSplit(q);
    }
  }

  /** Cleaning a rooted path twice is cleaning it once. */
  lemma CleanIdempotent(p: string)
    requires IsRooted(p)
    ensures Clean(Clean(p)) == Clean(p)
  {
    CleanFixesCleanRooted(Clean(p));
  }

  /** Re-rooting a clean rooted path leaves it alone. */
  lemma RerootFixesCleanRooted(q: string)
    requires IsCleanRooted(q)
    ensures Reroot(q) == q
  {
    var s := JoinElements(["/", q]);
    assert s == [Slash] + ([Slash] + q) by {
      assert ["/", q][1..] == [q];
      assert JoinElements([q]) == q;
    }
    assert Reroot(q) == Clean(s);
    CleanLeadingSlash([Slash] + q);
    CleanLeadingSlash(q);
    CleanFixesCleanRooted(q);
  }

  /** Line 95 does not change the path built at line 56. */
  lemma RerootRequestPath(index: string, path: string)
    ensures Reroot(RequestPath(index, path)) == RequestPath(index, path)
  {
    RerootFixesCleanRooted(RequestPath(index, path));
  }

  /** The elements of the request path: those of index, then those of path scanned on top of them. */
  lemma RequestPathElements(index: string, path: string)
    ensures RequestPath(index, path)
      == [Slash] + JoinElements(Resolve(Resolve([], Split(index), true), Split(path), true))
  {
    var s := JoinElements(["/", index, path]);
    SplitRequestJoin(index, path);
    assert IsRooted(s);
    assert RequestPath(index, path) == Clean(s);
    ResolveAppend([], ["", ""] + Split(index), Split(path), true);
    ResolveAppend([], ["", ""], Split(index), true);
  }

  /** The string line 56 cleans splits into two empty elements (the leading
      "/" and its separator), then the elements of index and of path. */
  lemma SplitRequestJoin(index: string, path: string)
    ensures JoinElements(["/", index, path]) == [Slash, Slash] + index + [Slash] + path
    ensures Split(JoinElements(["/", index, path])) == ["", ""] + Split(index) + Split(path)
  {
    var rest := index + [Slash] + path;
    JoinThree("/", index, path);
    assert JoinElements(["/", index, path]) == [Slash, Slash] + rest;
    SplitAppend(index, path);
    SplitLeadingSlash([Slash] + rest);
    SplitLeadingSlash(rest);
  }

  /** A leading slash splits off one empty element. */
  lemma SplitLeadingSlash(s: string)
    ensures Split([Slash] + s) == [""] + Split(s)
  {
    SplitAppend([], s);
    assert [] + [Slash] + s == [Slash] + s;
  }

  /** A request path with no ".." element stays under index: the result is the
      cleaned index followed by the cleaned path. */
  lemma RequestPathUnderIndex(index: string, path: string)
    requires ".." !in Split(path)
    ensures RequestPath(index, path)
      == [Slash] + JoinElements(Resolve([], Split(index), true) + Resolve([], Split(path), true))
  {
    RequestPathElements(index, path);
    ResolveWithoutDotDot(Resolve([], Split(index), true), Split(path), true);
  }

  /** ".." in the request path climbs out of index: under an index "docs" the
      path "/../../etc" becomes "/etc", not "/docs/etc"; the second ".." is
      dropped at the root. */
  lemma {:induction false} RequestPathEscapesIndex(index: string, name: string)
    requires IsElement(index) && IsElement(name)
    ensures RequestPath(index, "/../../" + name) == "/" + name
  {
    var dd := "..";
    var elems := ["", dd, dd, name];
    assert JoinElements(elems[3..]) == name;
    assert JoinElements(elems[2..]) == dd + [Slash] + name by { assert elems[2..][1..] == elems[3..]; }
    assert JoinElements(elems[1..]) == dd + [Slash] + dd + [Slash] + name by { assert elems[1..][1..] == elems[2..]; }
    assert JoinElements(elems) == "/../../" + name;
    SplitJoin(elems);
    SplitWithoutSlash(index);
    assert Resolve([], [index], true) == [index] by {
      assert Resolve([index], [], true) == [index];
    }
    assert Resolve([index], elems, true) == [name] by {
      assert Resolve([], [name], true) == [name] by {
        assert Resolve([name], [], true) == [name];
      }
      assert Resolve([], elems[2..], true) == [name] by {
        assert elems[2..][1..] == [name];
      }
      assert Resolve([index], elems[1..], true) == [name] by {
        assert elems[1..][1..] == elems[2..];
      }
    }
    RequestPathElements(index, "/../../" + name);
  }
}
