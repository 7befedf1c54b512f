/** Host paths as the DOS tools see them, under an emulator on Unix or on DOS itself. */
module GuestPath {
  import opened Basics
  import opened Strings
  import opened DosPath

  const DOS_PATH_LIMIT: nat := 63

  // ---- Anchors ----

  /** The part of `path` below `root`, without the separating slash, if `path` lies within. */
  function Within(path: string, root: string): Option<string>
  {
    if !(root <= path) then None
    else if root == "/" then Some(path[1..])
    else if |path| == |root| then Some("")
    else if path[|root|] == '/' then Some(path[|root| + 1..])
    else None
  }

  /** A resolved absolute host path: no slash at its end, except in the root itself. */
  predicate Resolved(path: string)
  {
    path == "/" || (path != "" && path[0] == '/' && path[|path| - 1] != '/')
  }

  /** `path` is the directory `root` or lies below it. */
  predicate Contains(root: string, path: string)
  {
    path == root || root + "/" <= path || (root == "/" && "/" <= path)
  }

  /** The path `relative` below `root`. */
  function Below(root: string, relative: string): string
  {
    if relative == "" then root
    else if root == "/" then "/" + relative
    else root + "/" + relative
  }

  lemma WithinIsBelow(path: string, root: string)
    requires Resolved(path) && Resolved(root)
    ensures Within(path, root).Some? <==> Contains(root, path)
    ensures Within(path, root).Some? ==> Below(root, Within(path, root).value) == path
  {
    if root <= path && root != "/" && |path| > |root| && path[|root|] == '/' {
      assert path == root + "/" + path[|root| + 1..];
    }
  }

  /** The host directories that are the guest drives D: and C:. */
  datatype Anchors = Anchors(root: string, cwd: string)

  datatype Guest = Guest(drive: char, relative: string)

  /** The drive for `path`, and its place on that drive. */
  function Locate(anchors: Anchors, path: string): Option<Guest>
  {
    var inRoot, inCwd := Within(path, anchors.root), Within(path, anchors.cwd);
    if inRoot.Some? && |anchors.root| >= |anchors.cwd| then Some(Guest('D', inRoot.value))
    else if inCwd.Some? then Some(Guest('C', inCwd.value))
    else if inRoot.Some? then Some(Guest('D', inRoot.value))
    else None
  }

  function Anchor(anchors: Anchors, drive: char): string
  {
    if drive == 'D' then anchors.root else anchors.cwd
  }

  /** The drive is that of the longest anchor that contains the path, D: if both are the same
      length; only a path outside both anchors has none. */
  lemma LongestAnchorWins(anchors: Anchors, path: string)
    requires Resolved(path) && Resolved(anchors.root) && Resolved(anchors.cwd)
    ensures Locate(anchors, path).None? <==> !Contains(anchors.root, path) && !Contains(anchors.cwd, path)
    ensures
      Locate(anchors, path).Some? ==>
        var g := Locate(anchors, path).value;
        && g.drive in {'C', 'D'} && Contains(Anchor(anchors, g.drive), path)
        && Below(Anchor(anchors, g.drive), g.relative) == path
        && (Contains(anchors.root, path) ==> |anchors.root| <= |Anchor(anchors, g.drive)|)
        && (Contains(anchors.cwd, path) ==> |anchors.cwd| <= |Anchor(anchors, g.drive)|)
        && (g.drive == 'C' && Contains(anchors.root, path) ==> |anchors.root| < |anchors.cwd|)
  {
    WithinIsBelow(path, anchors.root);
    WithinIsBelow(path, anchors.cwd);
  }

  lemma WithinJoined(root: string, relative: string)
    requires root != "/"
    ensures Within(root + "/" + relative, root) == Some(relative)
  {
  }

  lemma NotWithin(path: string, root: string, i: nat)
    requires i < |path| && i < |root| && path[i] != root[i]
    ensures Within(path, root) == None
  {
  }

  /** A file of the tool root is on drive D, and one of the working directory on drive C. */
  lemma GuestSamples(file: string)
    ensures
      var anchors := Anchors("/opt/aztec", "/home/me");
      && Locate(anchors, "/opt/aztec" + "/" + file) == Some(Guest('D', file))
      && Locate(anchors, "/home/me" + "/" + file) == Some(Guest('C', file))
      && Locate(anchors, "/usr/" + file) == None
    ensures Root('D') == "D:\\" && Slashes("lib/c.lib") == "lib\\c.lib"
  {
    WithinJoined("/opt/aztec", file);
    WithinJoined("/home/me", file);
    NotWithin("/home/me" + "/" + file, "/opt/aztec", 1);
    NotWithin("/usr/" + file, "/opt/aztec", 1);
    NotWithin("/usr/" + file, "/home/me", 1);
    hide Within;
    hide Slashes;
  }

  // ---- Names that DOS can represent ----

  predicate AllowedChar(c: char)
  {
    '!' <= c <= '~' && c !in "\";,:*?<>|+=[]" && c != '.' && c != '/' && c != SEP
  }

  /** All printing characters but these. */
  lemma AllowedChars(c: char)
    ensures AllowedChar(c) <==> '!' <= c <= '~' && c !in "\"*+,./:;<=>?[\\]|"
  {
  }

  predicate AllAllowed(s: string)
  {
    forall i :: 0 <= i < |s| ==> AllowedChar(s[i])
  }

  function UpperAll(s: string): (t: string)
    ensures |t| == |s|
  {
    seq(|s|, i requires 0 <= i < |s| => Upper(s[i]))
  }

  predicate Device(name: string)
  {
    var n := UpperAll(name);
    n in ["CON", "PRN", "AUX", "NUL"] ||
    (|n| == 4 && '1' <= n[3] <= '9' && n[..3] in ["COM", "LPT"])
  }

  /** These names in any case, and no others. */
  lemma DeviceNames(name: string)
    ensures
      var n := UpperAll(name);
      Device(name) <==>
        n in ["CON", "PRN", "AUX", "NUL"] || exists c :: c in "123456789" && (n == "COM" + [c] || n == "LPT" + [c])
  {
    var n := UpperAll(name);
    if |n| == 4 && '1' <= n[3] <= '9' {
      assert n[3] == "123456789"[n[3] as int - '1' as int];
      assert n == n[..3] + [n[3]];
    }
  }

  /** An 8.3 name: 1 to 8 allowed characters that name no device, and perhaps a dot and 1 to 3
      allowed characters behind it. */
  predicate Name83(part: string)
  {
    || (0 < |part| <= 8 && AllAllowed(part) && !Device(part))
    || exists dot :: 0 < dot < |part| && HasExtension(part, dot)
  }

  predicate HasExtension(part: string, dot: nat)
    requires dot < |part|
  {
    && part[dot] == '.' && 0 < dot <= 8 && 0 < |part| - dot - 1 <= 3
    && AllAllowed(part[..dot]) && AllAllowed(part[dot + 1..]) && !Device(part[..dot])
  }

  predicate Representable(part: string)
  {
    part == "" || Name83(part)
  }

  /** A guest path behind its drive and colon that DOS takes exactly as it is written. */
  predicate Exact(path: string)
    requires |path| >= 2
  {
    |path| <= DOS_PATH_LIMIT && AllRepresentable(Split(path[2..]))
  }

  predicate AllRepresentable(parts: seq<string>)
  {
    forall i :: 0 <= i < |parts| ==> Representable(parts[i])
  }

  /** No component of an exact path is "." or "..". */
  lemma ExactHasNoDots(path: string)
    requires |path| >= 2 && Exact(path)
    ensures "." !in Split(path[2..]) && ".." !in Split(path[2..])
  {
    assert !Representable(".") by {
      assert !AllowedChar("."[0]);
    }
    assert !Representable("..") by {
      assert !AllowedChar(".."[0]);
    }
  }

  // ---- The one-pass check ----

  /** What the check of a finished component looks at: its name and extension lengths. */
  predicate DosComponent(part: string, base: nat, ext: nat, dot: bool)
    requires base <= |part|
  {
    !(dot && (base == 0 || ext == 0)) && !Device(part[..base])
  }

  /** `part` is the beginning of a component with these counts, and may become a name. */
  predicate Partial(part: string, base: nat, ext: nat, dot: bool)
  {
    if dot then
      && base <= 8 && ext <= 3 && |part| == base + 1 + ext && part[base] == '.'
      && AllAllowed(part[..base]) && AllAllowed(part[base + 1..])
    else |part| == base <= 8 && ext == 0 && AllAllowed(part)
  }

  /** Some counts make `part` the beginning of a component. */
  ghost predicate Extendable(part: string)
  {
    exists base, ext, dot :: Partial(part, base, ext, dot)
  }

  lemma ComponentIsName(part: string, base: nat, ext: nat, dot: bool)
    requires Partial(part, base, ext, dot)
    ensures DosComponent(part, base, ext, dot) <==> Representable(part)
  {
    hide Device;
    if dot {
      assert !AllowedChar(part[base]);
      assert !AllAllowed(part);
      forall d | 0 < d < |part| && HasExtension(part, d)
        ensures d == base
      {
        DotIsUnique(part, base, d);
      }
      assert DosComponent(part, base, ext, dot) && base > 0 ==> HasExtension(part, base);
    } else {
      assert part[..base] == part;
      assert forall d :: 0 < d < |part| ==> AllowedChar(part[d]);
      if part == "" {
        EmptyIsNoDevice();
      }
    }
  }

  lemma EmptyIsNoDevice()
    ensures !Device("")
  {
  }

  lemma DotIsUnique(part: string, base: nat, d: nat)
    requires base < |part| && part[base] == '.' && d < |part|
    requires AllAllowed(part[..d]) && AllAllowed(part[d + 1..])
    ensures d == base
  {
    assert base < d ==> AllowedChar(part[..d][base]);
    assert base > d ==> AllowedChar(part[d + 1..][base - d - 1]);
  }

  lemma NameBeginsPartially(part: string, n: nat)
    requires n <= |part|
    ensures Representable(part) ==> Extendable(part[..n])
  {
    var head := part[..n];
    if AllAllowed(part) && |part| <= 8 {
      assert Partial(head, n, 0, false);
    } else if Representable(part) {
      var d :| 0 < d < |part| && HasExtension(part, d);
      if n <= d {
        assert head == part[..d][..n];
        assert Partial(head, n, 0, false);
      } else {
        assert head[..d] == part[..d] && head[d + 1..] == part[d + 1..][..n - d - 1];
        assert Partial(head, d, n - d - 1, true);
      }
    }
  }

  lemma {:induction false} SplitBegins(head: string, rest: string)
    requires SEP !in head
    ensures head <= Split(head + rest)[0]
  {
    if head != "" {
      assert head[0] in head;
      assert (head + rest)[1..] == head[1..] + rest;
      SplitBegins(head[1..], rest);
      assert head == head[..1] + head[1..];
    }
  }

  /** A beginning that cannot become a name rules out every continuation. */
  lemma Hopeless(head: string, rest: string)
    requires SEP !in head && !Extendable(head)
    ensures !AllRepresentable(Split(head + rest))
  {
    SplitBegins(head, rest);
    var part := Split(head + rest)[0];
    assert part[..|head|] == head;
    NameBeginsPartially(part, |head|);
  }

  /** How one more character changes the counts; without a result the component is refused. */
  function Counted(base: nat, ext: nat, dot: bool, c: char): Option<(nat, nat, bool)>
  {
    if c == '.' then if dot then None else Some((base, ext, true))
    else if !AllowedChar(c) then None
    else
      var b, e := if dot then base else base + 1, if dot then ext + 1 else ext;
      if b > 8 || e > 3 then None else Some((b, e, dot))
  }

  lemma CountedIsPartial(part: string, base: nat, ext: nat, dot: bool, c: char)
    requires Partial(part, base, ext, dot) && c != SEP
    ensures
      var next := Counted(base, ext, dot, c);
      if next.Some? then Partial(part + [c], next.value.0, next.value.1, next.value.2)
      else !Extendable(part + [c])
  {
    var more := part + [c];
    var next := Counted(base, ext, dot, c);
    if next.Some? {
      if dot {
        assert more[..base] == part[..base] && more[base + 1..] == part[base + 1..] + [c];
      } else if c == '.' {
        assert more[..base] == part;
      }
    } else {
      forall b: nat, e: nat, d: bool
        ensures !Partial(more, b, e, d)
      {
        RefusedIsHopeless(part, base, ext, dot, c, b, e, d);
      }
    }
  }

  lemma RefusedIsHopeless(part: string, base: nat, ext: nat, dot: bool, c: char, b: nat, e: nat, d: bool)
    requires Partial(part, base, ext, dot) && c != SEP && Counted(base, ext, dot, c).None?
    ensures !Partial(part + [c], b, e, d)
  {
    var more := part + [c];
    assert AllAllowed(more) ==> AllowedChar(more[|part|]) && (dot ==> AllowedChar(more[base]));
    assert !dot ==> forall i :: 0 <= i < |part| ==> AllowedChar(more[i]);
    if dot && b < |more| && AllAllowed(more[..b]) && AllAllowed(more[b + 1..]) {
      DotIsUnique(more, base, b);
      assert c == more[base + 1..][|part| - base - 1];
    }
  }

  // ---- The loop ----

  /** The text behind the drive is exact if the component at `from` and all later ones are. */
  ghost predicate Judged(text: string, from: nat)
  {
    from <= |text| && (AllRepresentable(Split(text)) <==> AllRepresentable(Split(text[from..])))
  }

  /** The scan stands at `at`, in the component that begins at `from` and has these counts. */
  ghost predicate Scanning(text: string, from: nat, at: nat, base: nat, ext: nat, dot: bool)
  {
    && from <= at <= |text| && SEP !in text[from..at]
    && Partial(text[from..at], base, ext, dot) && Judged(text, from)
  }

  lemma ScanStarts(text: string)
    ensures Scanning(text, 0, 0, 0, 0, false)
  {
    assert text[0..] == text;
    ScanFresh(text, 0);
  }

  lemma RepresentableCons(part: string, parts: seq<string>)
    ensures AllRepresentable([part] + parts) <==> Representable(part) && AllRepresentable(parts)
  {
    hide Representable;
    var all := [part] + parts;
    assert forall i :: 0 <= i < |parts| ==> parts[i] == all[i + 1];
    assert all[0] == part;
  }

  lemma JudgedNext(text: string, from: nat, at: nat)
    requires Judged(text, from) && from <= at < |text| && SEP !in text[from..at] && text[at] == SEP
    ensures if Representable(text[from..at]) then Judged(text, at + 1) else !AllRepresentable(Split(text))
  {
    hide Representable;
    hide AllRepresentable;
    hide Split;
    CutAt(text, from, at);
    SplitAt(text[from..at], text[at + 1..]);
    RepresentableCons(text[from..at], Split(text[at + 1..]));
  }

  lemma CutAt(text: string, from: nat, at: nat)
    requires from <= at < |text|
    ensures text[from..] == text[from..at] + [text[at]] + text[at + 1..]
  {
  }

  lemma ScanFresh(text: string, from: nat)
    requires Judged(text, from)
    ensures Scanning(text, from, from, 0, 0, false)
  {
    assert text[from..from] == "";
  }

  lemma ScanSeparator(text: string, from: nat, at: nat, base: nat, ext: nat, dot: bool)
    requires Scanning(text, from, at, base, ext, dot) && at < |text| && text[at] == SEP
    ensures base <= at - from
    ensures
      if DosComponent(text[from..at], base, ext, dot) then Scanning(text, at + 1, at + 1, 0, 0, false)
      else !AllRepresentable(Split(text))
  {
    hide DosComponent;
    hide Representable;
    hide AllRepresentable;
    hide AllAllowed;
    hide Judged;
    hide Split;
    ComponentIsName(text[from..at], base, ext, dot);
    JudgedNext(text, from, at);
    if Representable(text[from..at]) {
      ScanFresh(text, at + 1);
    }
  }

  lemma ScanChar(text: string, from: nat, at: nat, base: nat, ext: nat, dot: bool)
    requires Scanning(text, from, at, base, ext, dot) && at < |text| && text[at] != SEP
    ensures
      var next := Counted(base, ext, dot, text[at]);
      if next.Some? then Scanning(text, from, at + 1, next.value.0, next.value.1, next.value.2)
      else !AllRepresentable(Split(text))
  {
    hide AllRepresentable;
    hide Split;
    hide Counted;
    hide Partial;
    var part := text[from..at];
    var head := part + [text[at]];
    CountedIsPartial(part, base, ext, dot, text[at]);
    assert text[from..at + 1] == head;
    if Counted(base, ext, dot, text[at]).None? {
      assert text[from..] == head + text[at + 1..];
      Hopeless(head, text[at + 1..]);
    }
  }

  lemma ScanEnds(text: string, from: nat, base: nat, ext: nat, dot: bool)
    requires Scanning(text, from, |text|, base, ext, dot)
    ensures base <= |text| - from
    ensures AllRepresentable(Split(text)) <==> DosComponent(text[from..], base, ext, dot)
  {
    hide DosComponent;
    hide Representable;
    assert text[from..|text|] == text[from..];
    ComponentIsName(text[from..], base, ext, dot);
    SplitPlain(text[from..]);
    RepresentableCons(text[from..], []);
    assert [text[from..]] + [] == [text[from..]];
  }

  /** Turns the slashes of the guest path in `out` into backslashes, and checks it on the way.
      The path begins with a drive letter, a colon and a separator. */
  method ScanGuest(out: array<char>, ghost end: nat) returns (ok: bool)
    requires 3 <= end < out.Length && out[end] == '\0' && forall i :: 0 <= i < end ==> out[i] != '\0'
    requires IsLetter(out[0]) && out[1] == ':' && out[2] == SEP
    modifies out
    ensures ok == Exact(Slashes(old(out[..end])))
    ensures ok ==> out[..end] == Slashes(old(out[..end])) && out[end] == '\0'
  {
    hide Split;
    hide Slashes;
    hide AllRepresentable;
    hide Counted;
    hide DosComponent;
    hide Scanning;
    ghost var path := Slashes(out[..end]);
    ghost var text := path[2..];
    var base, ext, dot, component := 0, 0, false, 2;
    ScanStarts(text);
    // The letter and the colon only set the counts back to zero.
    var p := 2;
    while out[p] != '\0'
      invariant 2 <= component <= p <= end && out[end] == '\0'
      invariant out[..p] == path[..p] && forall i :: p <= i < end ==> out[i] == old(out[i])
      invariant Scanning(text, component - 2, p - 2, base, ext, dot)
      decreases end - p
    {
      if out[p] == '/' {
        out[p] := SEP;
      }
      assert out[p] == path[p] == text[p - 2];
      if out[p] == SEP {
        ScanSeparator(text, component - 2, p - 2, base, ext, dot);
        assert text[component - 2..p - 2] == out[component..p];
        if !DosComponent(out[component..p], base, ext, dot) {
          return false;
        }
        base, ext, dot, component := 0, 0, false, p + 1;
      } else {
        ScanChar(text, component - 2, p - 2, base, ext, dot);
        var next := Counted(base, ext, dot, out[p]);
        if next.None? {
          return false;
        }
        base, ext, dot := next.value.0, next.value.1, next.value.2;
      }
      p := p + 1;
    }
    ScanEnds(text, component - 2, base, ext, dot);
    if p > DOS_PATH_LIMIT {
      return false;
    }
    assert text[component - 2..] == out[component..p];
    return DosComponent(out[component..p], base, ext, dot);
  }

  // ---- From host to guest and back ----

  /** The guest path of resolved host path `path`, if the tools can reach it and DOS can
      represent it. */
  function GuestOf(anchors: Anchors, path: string): Option<string>
  {
    match Locate(anchors, path)
    case None => None
    case Some(g) =>
      if |g.relative| + 4 > LIMIT || SEP in g.relative then None
      else
        var guest := Slashes(Root(g.drive) + g.relative);
        if Exact(guest) then Some(guest) else None
  }

  /** The guest path of a canonical host path. On DOS that is the path itself. */
  function GuestFor(unix: bool, anchors: Anchors, path: string): Option<string>
  {
    if unix then GuestOf(anchors, path)
    else if |path| >= 2 && Exact(Slashes(path)) then Some(Slashes(path))
    else None
  }

  /** A canonical path on DOS: it begins with a drive and a backslash, and has no slashes. */
  predicate OnDrive(path: string)
  {
    3 <= |path| < LIMIT && IsLetter(path[0]) && path[1] == ':' && path[2] == SEP && '/' !in path
  }

  /** On DOS a guest path is the canonical host path, taken exactly as it is written. */
  lemma NativeGuest(anchors: Anchors, path: string)
    requires OnDrive(path)
    ensures GuestFor(false, anchors, path) == if Exact(path) then Some(path) else None
  {
    hide Exact;
    SlashesNothing(path);
  }

  /** Every guest path begins with a drive, a colon and a backslash. On Unix the drive is C or D. */
  lemma GuestHasDrive(unix: bool, anchors: Anchors, path: string)
    requires GuestFor(unix, anchors, path).Some? && (unix || OnDrive(path))
    ensures
      var guest := GuestFor(unix, anchors, path).value;
      && |guest| >= 3 && guest[1] == ':' && guest[2] == SEP && |guest| <= DOS_PATH_LIMIT
      && (if unix then guest[0] in "CD" else guest == path)
  {
    if unix {
      var g := Locate(anchors, path).value;
      assert (Root(g.drive) + g.relative)[..3] == Root(g.drive);
      assert g.drive == "CD"[0] || g.drive == "CD"[1];
    } else {
      NativeGuest(anchors, path);
    }
  }

  /** The slash for every backslash. */
  function Unslashed(s: string): string
  {
    seq(|s|, i requires 0 <= i < |s| => if s[i] == SEP then '/' else s[i])
  }

  /** The host path that a guest path stands for. */
  function HostOf(anchors: Anchors, guest: string): string
    requires |guest| >= 3
  {
    Below(Anchor(anchors, guest[0]), Unslashed(guest[3..]))
  }

  /** The guest path determines the host path. */
  lemma GuestUndone(anchors: Anchors, path: string)
    requires Resolved(path) && Resolved(anchors.root) && Resolved(anchors.cwd)
    requires GuestOf(anchors, path).Some?
    ensures |GuestOf(anchors, path).value| >= 3 && HostOf(anchors, GuestOf(anchors, path).value) == path
  {
    hide Exact;
    LongestAnchorWins(anchors, path);
    var g := Locate(anchors, path).value;
    var guest := GuestOf(anchors, path).value;
    assert Root(g.drive) + g.relative == [g.drive, ':', SEP] + g.relative;
    forall i | 0 <= i < |g.relative|
      ensures Unslashed(guest[3..])[i] == g.relative[i]
    {
      assert g.relative[i] in g.relative && guest[i + 3] == if g.relative[i] == '/' then SEP else g.relative[i];
    }
    assert Unslashed(guest[3..]) == g.relative;
  }

  /** Different host paths have different guest paths. */
  lemma GuestsDiffer(unix: bool, anchors: Anchors, path: string, other: string)
    requires if unix then Resolved(path) && Resolved(other) && Resolved(anchors.root) && Resolved(anchors.cwd)
             else OnDrive(path) && OnDrive(other)
    requires GuestFor(unix, anchors, path).Some? && GuestFor(unix, anchors, path) == GuestFor(unix, anchors, other)
    ensures path == other
  {
    if unix {
      GuestUndone(anchors, path);
      GuestUndone(anchors, other);
    } else {
      NativeGuest(anchors, path);
      NativeGuest(anchors, other);
    }
  }

  /** Stores the guest path of the canonical path `resolved`, ended by a NUL, in `out`. */
  method PathGuest(unix: bool, anchors: Anchors, resolved: string, out: array<char>)
    returns (ok: bool, ghost end: nat)
    requires out.Length == LIMIT && '\0' !in resolved && (unix || OnDrive(resolved))
    modifies out
    ensures ok == GuestFor(unix, anchors, resolved).Some?
    ensures ok ==> end < LIMIT && out[..end] == GuestFor(unix, anchors, resolved).value && out[end] == '\0'
  {
    hide Exact;
    ok, end := false, 0;
    if !unix {
      ok := CheckGuest(resolved, out);
      end := |resolved|;
      return;
    }
    var drive := 'D';
    var relative := Within(resolved, anchors.root);
    if !(relative.Some? && |anchors.root| >= |anchors.cwd|) {
      relative := Within(resolved, anchors.cwd);
      if relative.Some? {
        drive := 'C';
      } else {
        relative := Within(resolved, anchors.root);
        if relative.None? {
          return;
        }
      }
    }
    assert Locate(anchors, resolved) == Some(Guest(drive, relative.value));
    if |relative.value| + 4 > LIMIT || SEP in relative.value {
      return;
    }
    var path := Root(drive) + relative.value;
    assert forall i :: 0 <= i < |relative.value| ==> relative.value[i] in resolved;
    ok := CheckGuest(path, out);
    end := |path|;
  }

  /** Copies `path` to `out`, with backslashes for slashes, and checks it there. */
  method CheckGuest(path: string, out: array<char>) returns (ok: bool)
    requires out.Length == LIMIT && '\0' !in path
    requires 3 <= |path| < LIMIT && IsLetter(path[0]) && path[1] == ':' && path[2] == SEP
    modifies out
    ensures ok == Exact(Slashes(path))
    ensures ok ==> out[..|path|] == Slashes(path) && out[|path|] == '\0'
  {
    hide Exact;
    forall i | 0 <= i < |path| {
      out[i] := path[i];
    }
    out[|path|] := '\0';
    assert out[..|path|] == path;
    assert forall i :: 0 <= i < |path| ==> path[i] in path;
    ok := ScanGuest(out, |path|);
  }

  // ---- Comparing names as DOS does ----

  function Lower(c: char): char
  {
    if 'A' <= c <= 'Z' then c - 'A' + 'a' else c
  }

  function LowerAll(s: string): (t: string)
    ensures |t| == |s|
  {
    seq(|s|, i requires 0 <= i < |s| => Lower(s[i]))
  }

  /** The same file name, whatever the case of its letters. */
  const CAPITALS := "ABCDEFGHIJKLMNOPQRSTUVWXYZ"
  const SMALL := "abcdefghijklmnopqrstuvwxyz"

  /** Capital and small letters are folded into each other, and nothing else. */
  lemma Letters26(c: char)
    ensures forall i :: 0 <= i < 26 ==> Lower(CAPITALS[i]) == SMALL[i] && Upper(SMALL[i]) == CAPITALS[i]
    ensures (c !in CAPITALS ==> Lower(c) == c) && (c !in SMALL ==> Upper(c) == c)
  {
    if 'A' <= c <= 'Z' {
      assert c == CAPITALS[c as int - 'A' as int];
    }
    if 'a' <= c <= 'z' {
      assert c == SMALL[c as int - 'a' as int];
    }
  }

  predicate PathEqual(a: string, b: string)
  {
    LowerAll(a) == LowerAll(b)
  }

  method ComparePaths(a: string, b: string) returns (equal: bool)
    ensures equal == PathEqual(a, b)
  {
    var i := 0;
    while i < |a| && i < |b|
      invariant i <= |a| && i <= |b|
      invariant forall k :: 0 <= k < i ==> Lower(a[k]) == Lower(b[k])
    {
      if Lower(a[i]) != Lower(b[i]) {
        assert LowerAll(a)[i] != LowerAll(b)[i] || |a| != |b|;
        return false;
      }
      i := i + 1;
    }
    equal := i == |a| && i == |b|;
    if equal {
      assert forall k :: 0 <= k < |a| ==> LowerAll(a)[k] == LowerAll(b)[k];
    } else {
      assert |LowerAll(a)| != |LowerAll(b)|;
    }
  }
}
