/** Absolute, normalised DOS paths. */
module DosPath {
  import opened Basics
  import opened Strings

  const SEP := '\\'
  const LIMIT: nat := 1024

  // ---- Components ----

  /** The parts of `s` between its backslashes; there is always one more part than backslashes. */
  function Split(s: string): (parts: seq<string>)
    ensures parts != []
  {
    if s == "" then [""]
    else
      var rest := Split(s[1..]);
      if s[0] == SEP then [""] + rest else [s[..1] + rest[0]] + rest[1..]
  }

  function Join(parts: seq<string>): string
  {
    if parts == [] then ""
    else if |parts| == 1 then parts[0]
    else Join(parts[..|parts| - 1]) + [SEP] + parts[|parts| - 1]
  }

  /** A directory stack after one more component. */
  function Enter(stack: seq<string>, part: string): seq<string>
  {
    if part == "" || part == "." then stack
    else if part == ".." then if stack == [] then [] else stack[..|stack| - 1]
    else stack + [part]
  }

  function Walk(stack: seq<string>, parts: seq<string>): seq<string>
    decreases parts
  {
    if parts == [] then stack else Walk(Enter(stack, parts[0]), parts[1..])
  }

  /** The normal form of a path below its root. */
  function Folded(s: string): string
  {
    Join(Walk([], Split(s)))
  }

  predicate Ordinary(part: string)
  {
    part != "" && part != "." && part != ".." && SEP !in part
  }

  predicate AllOrdinary(parts: seq<string>)
  {
    forall i :: 0 <= i < |parts| ==> Ordinary(parts[i])
  }

  lemma {:induction false} SplitHasNoSeparator(s: string)
    ensures forall i :: 0 <= i < |Split(s)| ==> SEP !in Split(s)[i]
  {
    if s != "" {
      SplitHasNoSeparator(s[1..]);
    }
  }

  lemma {:induction false} SplitAt(a: string, b: string)
    requires SEP !in a
    ensures Split(a + [SEP] + b) == [a] + Split(b)
  {
    var s := a + [SEP] + b;
    if a == "" {
      assert s[1..] == b;
    } else {
      assert s[1..] == a[1..] + [SEP] + b && a[0] in a;
      SplitAt(a[1..], b);
      assert s[..1] + a[1..] == a;
    }
  }

  lemma {:induction false} SplitPlain(a: string)
    requires SEP !in a
    ensures Split(a) == [a]
  {
    if a != "" {
      assert a[0] in a;
      SplitPlain(a[1..]);
      assert a[..1] + a[1..] == a;
    }
  }

  lemma {:induction false} WalkIsOrdinary(stack: seq<string>, parts: seq<string>)
    requires AllOrdinary(stack)
    requires forall i :: 0 <= i < |parts| ==> SEP !in parts[i]
    ensures AllOrdinary(Walk(stack, parts))
    decreases parts
  {
    if parts != [] {
      WalkIsOrdinary(Enter(stack, parts[0]), parts[1..]);
    }
  }

  lemma {:induction false} WalkOrdinary(stack: seq<string>, parts: seq<string>)
    requires AllOrdinary(parts)
    ensures Walk(stack, parts) == stack + parts
    decreases parts
  {
    if parts == [] {
      assert stack + parts == stack;
    } else {
      assert Ordinary(parts[0]);
      assert forall i :: 0 <= i < |parts[1..]| ==> parts[1..][i] == parts[i + 1];
      WalkOrdinary(stack + [parts[0]], parts[1..]);
      assert stack + [parts[0]] + parts[1..] == stack + parts;
    }
  }

  lemma {:induction false} JoinHead(parts: seq<string>)
    requires |parts| > 1
    ensures Join(parts) == parts[0] + [SEP] + Join(parts[1..])
  {
    var front, last := parts[..|parts| - 1], parts[|parts| - 1];
    if |parts| == 2 {
      assert front == [parts[0]] && parts[1..] == [last];
    } else {
      JoinHead(front);
      assert front[1..] == parts[1..][..|parts| - 2];
      var tail := Join(front[1..]);
      assert parts[0] + [SEP] + tail + [SEP] + last == parts[0] + [SEP] + (tail + [SEP] + last);
    }
  }

  lemma {:induction false} SplitUndoesJoin(parts: seq<string>)
    requires parts != [] && AllOrdinary(parts)
    ensures Split(Join(parts)) == parts
  {
    assert Ordinary(parts[0]);
    if |parts| == 1 {
      SplitPlain(parts[0]);
    } else {
      JoinHead(parts);
      assert forall i :: 0 <= i < |parts[1..]| ==> parts[1..][i] == parts[i + 1];
      SplitUndoesJoin(parts[1..]);
      SplitAt(parts[0], Join(parts[1..]));
    }
  }

  /** The folded path consists of ordinary components only: no empty one, no "." and no "..". */
  lemma FoldedIsOrdinary(s: string)
    ensures Folded(s) == "" || AllOrdinary(Split(Folded(s)))
  {
    var stack := Walk([], Split(s));
    SplitHasNoSeparator(s);
    WalkIsOrdinary([], Split(s));
    if stack != [] {
      SplitUndoesJoin(stack);
    }
  }

  /** A path of ordinary components is not changed by folding. */
  lemma OrdinaryIsFixed(s: string)
    requires s == "" || AllOrdinary(Split(s))
    ensures Folded(s) == s
  {
    if s == "" {
      assert Walk([""], []) == [""] && Walk([], [""]) == Walk([], []);
    } else {
      WalkOrdinary([], Split(s));
      assert [] + Split(s) == Split(s);
      JoinUndoesSplit(s);
    }
  }

  lemma {:induction false} JoinUndoesSplit(s: string)
    ensures Join(Split(s)) == s
  {
    if s != "" {
      JoinUndoesSplit(s[1..]);
      var rest, parts := Split(s[1..]), Split(s);
      if |rest| > 1 {
        JoinHead(rest);
      }
      if |parts| > 1 {
        JoinHead(parts);
        if s[0] != SEP {
          assert parts[1..] == rest[1..];
        } else {
          assert parts[1..] == rest;
        }
      }
    }
  }

  lemma FoldingTwice(s: string)
    ensures Folded(Folded(s)) == Folded(s)
  {
    FoldedIsOrdinary(s);
    OrdinaryIsFixed(Folded(s));
  }

  // ---- What each component does ----

  lemma SplitCons(s: string)
    requires s != ""
    ensures
      var rest := Split(s[1..]);
      Split(s) == if s[0] == SEP then [""] + rest else [s[..1] + rest[0]] + rest[1..]
  {
  }

  lemma {:induction false} SplitConcat(a: string, b: string)
    ensures Split(a + [SEP] + b) == Split(a) + Split(b)
  {
    var s := a + [SEP] + b;
    SplitCons(s);
    if a == "" {
      assert s[1..] == b;
    } else {
      assert s[1..] == a[1..] + [SEP] + b;
      SplitConcat(a[1..], b);
      SplitCons(a);
      hide Split;
      var rest, more := Split(a[1..]), Split(b);
      assert (rest + more)[0] == rest[0] && (rest + more)[1..] == rest[1..] + more;
      assert s[0] == a[0] && s[..1] == a[..1];
    }
  }

  lemma {:induction false} WalkConcat(stack: seq<string>, parts: seq<string>, more: seq<string>)
    ensures Walk(stack, parts + more) == Walk(Walk(stack, parts), more)
    decreases parts
  {
    if parts == [] {
      assert parts + more == more;
    } else {
      assert (parts + more)[0] == parts[0] && (parts + more)[1..] == parts[1..] + more;
      WalkConcat(Enter(stack, parts[0]), parts[1..], more);
    }
  }

  lemma FoldedConcat(a: string, b: string)
    ensures Folded(a + "\\" + b) == Join(Walk(Walk([], Split(a)), Split(b)))
  {
    SplitConcat(a, b);
    WalkConcat([], Split(a), Split(b));
    assert a + "\\" + b == a + [SEP] + b;
  }

  /** Components without a separator enter one after the other. */
  lemma WalkParts(stack: seq<string>, x: string, y: string, b: string)
    requires SEP !in x && SEP !in y
    ensures Walk(stack, Split(x)) == Enter(stack, x)
    ensures Walk(stack, Split(x + "\\" + b)) == Walk(Enter(stack, x), Split(b))
    ensures Walk(stack, Split(x + "\\" + y + "\\" + b)) == Walk(Enter(Enter(stack, x), y), Split(b))
  {
    hide Walk;
    hide Split;
    hide Enter;
    WalkPart(stack, x, b);
    WalkPart(stack, x, y + "\\" + b);
    WalkPart(Enter(stack, x), y, b);
    assert x + "\\" + (y + "\\" + b) == x + "\\" + y + "\\" + b;
  }

  lemma WalkPart(stack: seq<string>, x: string, b: string)
    requires SEP !in x
    ensures Walk(stack, Split(x)) == Enter(stack, x)
    ensures Walk(stack, Split(x + "\\" + b)) == Walk(Enter(stack, x), Split(b))
  {
    SplitPlain(x);
    SplitConcat(x, b);
    WalkConcat(stack, [x], Split(b));
    assert x + "\\" + b == x + [SEP] + b;
    assert [x][1..] == [] && Walk(stack, [x]) == Walk(Enter(stack, x), []);
  }

  /** The component ".." takes off the ordinary component before it, and does nothing at the root. */
  lemma ParentUndone(a: string, x: string, b: string)
    requires Ordinary(x)
    ensures Folded(a + "\\" + (x + "\\..\\" + b)) == Folded(a + "\\" + b)
    ensures Folded(a + "\\" + (x + "\\..")) == Folded(a)
    ensures Folded(x + "\\..\\" + b) == Folded("..\\" + b) == Folded(b)
  {
    hide Join;
    FoldedConcat(a, x + "\\..\\" + b);
    FoldedConcat(a, x + "\\..");
    FoldedConcat(a, b);
    UpAgain(Walk([], Split(a)), x, b);
    UpAgain([], x, b);
  }

  lemma UpAgain(stack: seq<string>, x: string, b: string)
    requires Ordinary(x)
    ensures Walk(stack, Split(x + "\\..\\" + b)) == Walk(stack, Split(b))
    ensures Walk(stack, Split(x + "\\..")) == stack
    ensures Walk([], Split("..\\" + b)) == Walk([], Split(b))
  {
    hide Walk;
    var up := "..";
    assert SEP !in up;
    WalkParts(stack, x, up, b);
    WalkPart(stack, x, up);
    WalkPart(Enter(stack, x), up, b);
    WalkPart([], up, b);
    assert x + "\\" + up == x + "\\.." && x + "\\" + up + "\\" + b == x + "\\..\\" + b;
    assert up + "\\" + b == "..\\" + b && (stack + [x])[..|stack|] == stack;
  }

  /** The components "" and "." do nothing. With the lemma above and `OrdinaryIsFixed` this leaves no
      freedom in what a folded path is. */
  lemma NothingEntered(a: string, x: string, b: string)
    requires x == "" || x == "."
    ensures Folded(a + "\\" + (x + "\\" + b)) == Folded(a + "\\" + b)
    ensures Folded(a + "\\" + x) == Folded(a)
    ensures Folded(x + "\\" + b) == Folded(b)
  {
    hide Join;
    hide Walk;
    assert SEP !in x;
    FoldedConcat(a, x + "\\" + b);
    FoldedConcat(a, x);
    FoldedConcat(a, b);
    WalkPart(Walk([], Split(a)), x, b);
    WalkPart([], x, b);
  }

  // ---- Folding with two cursors ----

  lemma ParentOfJoin(stack: seq<string>, n: nat)
    requires stack != [] && AllOrdinary(stack) && n <= |Join(stack)|
    requires SEP !in Join(stack)[n..] && (n == 0 || Join(stack)[n - 1] == SEP)
    ensures Join(stack[..|stack| - 1]) == Join(stack)[..if n > 0 then n - 1 else 0]
  {
    var front, last := stack[..|stack| - 1], stack[|stack| - 1];
    assert Ordinary(last);
    var all := Join(stack);
    if |stack| == 1 {
      InDrop(all, 0);
      assert all[0..] == last;
    } else {
      var m := |Join(front)|;
      assert all[m] == SEP && all[m + 1..] == last;
      InDrop(all, n);
      InDrop(all, m + 1);
      assert n == m + 1;
    }
  }

  lemma InDrop(s: string, n: nat)
    requires n <= |s|
    ensures forall i :: n <= i < |s| ==> s[i] in s[n..]
  {
    forall i | n <= i < |s|
      ensures s[i] in s[n..]
    {
      assert s[n..][i - n] == s[i];
    }
  }

  /** Takes the last component off the path `out[3..write]`. */
  method Up(out: array<char>, write: nat, ghost stack: seq<string>) returns (end: nat)
    requires 3 <= write <= out.Length && AllOrdinary(stack)
    requires out[3..write] == Join(stack)
    ensures 3 <= end <= write
    ensures if SEP !in out[3..write] then end == 3 else end < write && out[end] == SEP && SEP !in out[end + 1..write]
    ensures out[3..end] == Join(Enter(stack, ".."))
  {
    end := write;
    while end > 3 && out[end - 1] != SEP
      invariant 3 <= end <= write
      invariant SEP !in out[end..write]
    {
      end := end - 1;
    }
    ghost var n := end - 3;
    assert Join(stack)[n..] == out[end..write];
    if end > 3 {
      end := end - 1;
    }
    if stack != [] {
      assert n > 0 ==> Join(stack)[n - 1] == out[n + 2];
      ParentOfJoin(stack, n);
      assert out[3..end] == Join(stack)[..end - 3];
    } else {
      assert Join([]) == "";
    }
  }

  /** Appends component `combined[start..read]` to the path `out[3..write]`. */
  method Down(out: array<char>, write: nat, combined: array<char>, start: nat, read: nat, ghost stack: seq<string>)
    returns (end: nat)
    requires out != combined && start < read <= combined.Length
    requires 3 <= write && write + 1 + (read - start) <= out.Length
    requires AllOrdinary(stack) && out[3..write] == Join(stack)
    modifies out
    ensures end == write + (read - start) + if write > 3 then 1 else 0
    ensures out[..3] == old(out[..3])
    ensures out[3..end] == Join(stack + [combined[start..read]])
  {
    JoinSnoc(stack, combined[start..read]);
    ghost var above, part, joined := Join(stack), combined[start..read], Join(stack + [combined[start..read]]);
    ghost var head := if write > 3 then above + [SEP] else "";
    assert joined == head + part;
    hide *;
    end := write;
    if end > 3 {
      out[end] := SEP;
      end := end + 1;
    }
    assert out[3..end] == head;
    ghost var text, before := out[..], end;
    forall i | 0 <= i < read - start {
      out[end + i] := combined[start + i];
    }
    end := end + (read - start);
    assert out[..before] == text[..before];
    assert out[before..end] == part;
    Assembled(out[..], before, end, head, part);
  }

  lemma Assembled(text: string, middle: nat, end: nat, head: string, part: string)
    requires 3 <= middle <= end <= |text| && text[3..middle] == head && text[middle..end] == part
    ensures text[3..end] == head + part
  {
  }

  lemma JoinSnoc(stack: seq<string>, part: string)
    requires AllOrdinary(stack)
    ensures Join(stack + [part]) == if stack == [] then part else Join(stack) + [SEP] + part
    ensures Join(stack) == "" <==> stack == []
  {
    assert (stack + [part])[..|stack|] == stack;
    if stack != [] {
      assert Ordinary(stack[|stack| - 1]);
    }
  }

  /** The position of the separator or NUL that ends the component at `start`. */
  method EndOfPart(combined: array<char>, start: nat, ghost end: nat) returns (read: nat)
    requires start < end < combined.Length && combined[end] == '\0'
    requires forall i :: start <= i < end ==> combined[i] != '\0'
    ensures start <= read <= end && SEP !in combined[start..read]
    ensures read < end ==> combined[read] == SEP
  {
    read := start;
    while combined[read] != '\0' && combined[read] != SEP
      invariant start <= read <= end
      invariant SEP !in combined[start..read]
      decreases end - read
    {
      read := read + 1;
    }
  }

  /** Adds the component `combined[start..read]` to the path `out[3..write]`, or leaves it out, or
      goes up one level. */
  method EnterPart(out: array<char>, write: nat, combined: array<char>, start: nat, read: nat, ghost stack: seq<string>)
    returns (end: nat)
    requires out != combined && start <= read <= combined.Length
    requires 3 <= write && write + 1 + (read - start) <= out.Length
    requires AllOrdinary(stack) && out[3..write] == Join(stack)
    modifies out
    ensures 3 <= end <= write + (read - start) + if write > 3 then 1 else 0
    ensures out[..3] == old(out[..3])
    ensures out[3..end] == Join(Enter(stack, combined[start..read]))
  {
    hide Join;
    ghost var part := combined[start..read];
    var length := read - start;
    end := write;
    if length == 2 && combined[start] == '.' && combined[start + 1] == '.' {
      assert part == "..";
      end := Up(out, write, stack);
    } else if length != 0 && !(length == 1 && combined[start] == '.') {
      assert part != "" && part != "." && part != "..";
      end := Down(out, write, combined, start, read, stack);
    } else {
      assert part == "" || part == ".";
    }
  }

  /** The folding loop: `combined` holds a root of three characters and the path below it, up to
      the first NUL; the folded path goes to `out`, behind the same root. */
  method Fold(combined: array<char>, out: array<char>, ghost end: nat) returns (write: nat)
    requires combined != out && 3 <= end < combined.Length && end < out.Length
    requires combined[end] == '\0' && forall i :: 3 <= i < end ==> combined[i] != '\0'
    modifies out
    ensures 3 <= write <= end
    ensures out[..3] == old(out[..3]) && out[3..write] == Folded(combined[3..end]) && out[write] == '\0'
  {
    hide Split;
    hide Walk;
    hide Join;
    hide Enter;
    hide Folded;
    hide Pending;
    hide AllOrdinary;
    write := 3;
    var read := 3;
    ghost var stack: seq<string>, root, all := [], out[..3], combined[3..end];
    FoldStarts(all);
    assert out[3..3] == "";
    while combined[read] != '\0'
      invariant 3 <= read <= end && 3 <= write <= read && out[..3] == root
      // Behind a component and its separator, the write cursor lags one behind.
      invariant write == 3 || read == end || write < read
      invariant AllOrdinary(stack) && out[3..write] == Join(stack)
      invariant combined[3..end] == all && Pending(all, combined[read..end], stack)
      decreases end - read
    {
      var start := read;
      read := EndOfPart(combined, start, end);
      ghost var rest, part := combined[start..end], combined[start..read];
      assert part == rest[..|part|];
      FoldStep(all, rest, stack, part);
      write := EnterPart(out, write, combined, start, read, stack);
      stack := Enter(stack, part);
      if combined[read] != '\0' {
        assert rest[|part| + 1..] == combined[read + 1..end];
        read := read + 1;
      } else {
        assert combined[read..end] == "";
      }
    }
    assert combined[read..end] == "";
    FoldEnds(all, stack);
    out[write] := '\0';
  }

  /** Walking on from `stack` through the rest of the path gives the same as walking the whole. */
  ghost predicate Pending(all: string, rest: string, stack: seq<string>)
  {
    Walk([], Split(all)) == if rest == "" then stack else Walk(stack, Split(rest))
  }

  lemma FoldStarts(all: string)
    ensures Pending(all, all, []) && AllOrdinary([]) && Join([]) == ""
  {
    assert Split("") == [""] && Walk([], [""]) == Walk([], []);
  }

  lemma FoldStep(all: string, rest: string, stack: seq<string>, part: string)
    requires rest != "" && part <= rest && SEP !in part && AllOrdinary(stack)
    requires |part| < |rest| ==> rest[|part|] == SEP
    requires Pending(all, rest, stack)
    ensures AllOrdinary(Enter(stack, part))
    ensures Pending(all, if |part| < |rest| then rest[|part| + 1..] else "", Enter(stack, part))
  {
    if |part| < |rest| {
      var next := rest[|part| + 1..];
      assert rest == part + [SEP] + next;
      SplitAt(part, next);
      assert Walk(stack, [part] + Split(next)) == Walk(Enter(stack, part), Split(next));
      if next == "" {
        assert Walk(Enter(stack, part), [""]) == Walk(Enter(stack, part), []);
      }
    } else {
      assert rest == part;
      SplitPlain(part);
      assert Walk(stack, [part]) == Walk(Enter(stack, part), []);
    }
  }

  lemma FoldEnds(all: string, stack: seq<string>)
    requires Pending(all, "", stack)
    ensures Join(stack) == Folded(all)
  {
  }

  // ---- The canonical path ----

  function Upper(c: char): char
  {
    if 'a' <= c <= 'z' then c - 'a' + 'A' else c
  }

  predicate IsLetter(c: char)
  {
    'A' <= c <= 'Z' || 'a' <= c <= 'z'
  }

  function Slashes(s: string): (t: string)
    ensures |t| == |s|
    ensures forall i :: 0 <= i < |s| ==> t[i] == if s[i] == '/' then SEP else s[i]
  {
    if s == "" then "" else [if s[0] == '/' then SEP else s[0]] + Slashes(s[1..])
  }

  /** `parent` and `name` with a separator between them, all separators as backslashes. */
  function PathJoin(parent: string, name: string): Option<string>
  {
    if |parent| + |name| + 2 > LIMIT then None
    else
      var gap := parent != "" && parent[|parent| - 1] != '/' && parent[|parent| - 1] != SEP;
      Some(Slashes(parent + (if gap then [SEP] else "") + name))
  }

  function Root(drive: char): string
  {
    [drive, ':', SEP]
  }

  function DriveOf(path: string, current: char): char
  {
    if |path| >= 2 && IsLetter(path[0]) && path[1] == ':' then Upper(path[0]) else current
  }

  function WithoutDrive(path: string): string
  {
    if |path| >= 2 && IsLetter(path[0]) && path[1] == ':' then path[2..] else path
  }

  /** The unfolded absolute path, given the directory that each drive is in. */
  function Combined(path: string, current: char, cwd: char -> Option<string>): (r: Option<string>)
    ensures r.Some? ==> 3 <= |r.value|
  {
    var root, rest := Root(DriveOf(path, current)), WithoutDrive(path);
    if rest != "" && (rest[0] == SEP || rest[0] == '/') then PathJoin(root, rest[1..])
    else
      match cwd(DriveOf(path, current))
      case None => None
      case Some(directory) =>
        match PathJoin(root, directory)
        case None => None
        case Some(out) => PathJoin(out, rest)
  }

  /** The absolute normalised form of `path` on DOS, if it is not too long and the directory of
      its drive is known. */
  function Canonical(path: string, current: char, cwd: char -> Option<string>): Option<string>
  {
    if |path| >= LIMIT then None
    else
      match Combined(path, current, cwd)
      case None => None
      case Some(combined) => Some(combined[..3] + Folded(combined[3..]))
  }

  lemma CombinedShape(path: string, current: char, cwd: char -> Option<string>)
    requires 'A' <= current <= 'Z' && Combined(path, current, cwd).Some?
    ensures
      var c := Combined(path, current, cwd).value;
      && 3 <= |c| < LIMIT && c[..3] == Root(DriveOf(path, current)) && 'A' <= c[0] <= 'Z'
      && '/' !in c
  {
  }

  /** An absolute path is folded below the root of its drive, any other one below the directory of
      its drive. */
  lemma CanonicalForms(path: string, current: char, cwd: char -> Option<string>)
    requires |path| < LIMIT && 'A' <= current <= 'Z'
    ensures
      var root, rest := Root(DriveOf(path, current)), WithoutDrive(path);
      if rest != "" && (rest[0] == '\\' || rest[0] == '/') then
        |rest| + 4 <= LIMIT ==> Canonical(path, current, cwd) == Some(root + Folded(Slashes(rest[1..])))
      else
        var directory := cwd(DriveOf(path, current));
        directory.Some? && |directory.value| + |rest| + 6 <= LIMIT ==>
          Canonical(path, current, cwd) == Some(root + Folded(Slashes(directory.value) + "\\" + Slashes(rest)))
  {
    hide Folded;
    hide PathJoin;
    var root, rest := Root(DriveOf(path, current)), WithoutDrive(path);
    assert '/' !in root && root[2] == SEP;
    hide WithoutDrive;
    hide DriveOf;
    hide Gap;
    hide Slashes;
    if rest != "" && (rest[0] == '\\' || rest[0] == '/') {
      if |rest| + 4 <= LIMIT {
        JoinedRoot(root, rest[1..]);
      }
    } else if cwd(DriveOf(path, current)).Some? && |cwd(DriveOf(path, current)).value| + |rest| + 6 <= LIMIT {
      var directory := cwd(DriveOf(path, current)).value;
      JoinedRoot(root, directory);
      BelowDirectory(root, directory, rest);
    }
  }

  /** What is put behind `parent` so that it ends in a separator. */
  function Gap(parent: string): string
  {
    if parent == "" || parent[|parent| - 1] == SEP then "" else [SEP]
  }

  lemma Joined(parent: string, name: string)
    requires '/' !in parent && |parent| + |name| + 2 <= LIMIT
    ensures PathJoin(parent, name) == Some(parent + Gap(parent) + Slashes(name))
  {
    assert parent != "" ==> parent[|parent| - 1] in parent;
    assert PathJoin(parent, name) == Some(Slashes(parent + Gap(parent) + name));
    assert '/' !in parent + Gap(parent);
    hide Slashes;
    hide Gap;
    hide PathJoin;
    SlashesConcat(parent + Gap(parent), name);
    SlashesNothing(parent + Gap(parent));
  }

  lemma JoinedRoot(root: string, name: string)
    requires |root| == 3 && root[2] == SEP && '/' !in root && |name| + 5 <= LIMIT
    ensures PathJoin(root, name) == Some(root + Slashes(name))
    ensures (root + Slashes(name))[..3] == root && (root + Slashes(name))[3..] == Slashes(name)
  {
    assert Gap(root) == "";
    hide *;
    Joined(root, name);
    RootHead(root, Slashes(name));
  }

  lemma SlashesConcat(a: string, b: string)
    ensures Slashes(a + b) == Slashes(a) + Slashes(b)
  {
    hide Slashes;
  }

  lemma BelowDirectory(root: string, directory: string, rest: string)
    requires |root| == 3 && root[2] == SEP && '/' !in root && |directory| + |rest| + 5 <= LIMIT
    ensures
      var combined := PathJoin(root + Slashes(directory), rest);
      && combined.Some? && combined.value[..3] == root
      && Folded(combined.value[3..]) == Folded(Slashes(directory) + "\\" + Slashes(rest))
  {
    hide Folded;
    hide PathJoin;
    hide Slashes;
    var below, tail := Slashes(directory), Slashes(rest);
    assert '/' !in below;
    Joined(root + below, rest);
    assert Gap(root + below) == Gap(below);
    hide Gap;
    GapFolds(below, tail);
    BehindRoot(root, below, Gap(below), tail);
  }

  lemma RootHead(root: string, below: string)
    requires |root| == 3
    ensures root + "" + below == root + below && (root + below)[..3] == root && (root + below)[3..] == below
  {
  }

  lemma BehindRoot(root: string, a: string, b: string, c: string)
    requires |root| == 3
    ensures (root + a + b + c)[..3] == root && (root + a + b + c)[3..] == a + b + c
  {
  }

  lemma GapFolds(below: string, tail: string)
    ensures Folded(below + Gap(below) + tail) == Folded(below + "\\" + tail)
  {
    hide Folded;
    if below == "" {
      NothingEntered("", "", tail);
      assert below + "" + tail == tail && below + "\\" + tail == "" + "\\" + tail;
    } else if below[|below| - 1] == SEP {
      var a := below[..|below| - 1];
      NothingEntered(a, "", tail);
      assert below + "" + tail == a + "\\" + tail;
      assert below + "\\" + tail == a + "\\" + ("" + "\\" + tail);
    } else {
      assert [SEP] == "\\";
    }
  }

  /** Drive C is in directory SRC, and no other drive is there. */
  function OnlySource(drive: char): Option<string>
  {
    if drive == 'C' then Some("SRC") else None
  }

  /** Some paths as DOS takes them from there. */
  lemma SourcePaths()
    ensures Canonical("..\\X.C", 'C', OnlySource) == Some("C:\\X.C")
    ensures Canonical("c:x.c", 'D', OnlySource) == Some("C:\\SRC\\x.c")
    ensures Canonical("d:/A/./B", 'C', OnlySource) == Some("D:\\A\\B")
    ensures Canonical("X.C", 'D', OnlySource) == None
  {
    hide Folded;
    hide Slashes;
    assert Canonical("X.C", 'D', OnlySource) == None;
    hide Canonical;
    SourceSlashes();
    FoldedSources();
    assert Root('C') + "X.C" == "C:\\X.C" && Root('C') + "SRC\\x.c" == "C:\\SRC\\x.c" && Root('D') + "A\\B" == "D:\\A\\B";
    SourceDrives();
    hide DriveOf;
    hide WithoutDrive;
    hide Root;
    CanonicalForms("..\\X.C", 'C', OnlySource);
    CanonicalForms("c:x.c", 'D', OnlySource);
    CanonicalForms("d:/A/./B", 'C', OnlySource);
  }

  lemma SourceDrives()
    ensures DriveOf("..\\X.C", 'C') == 'C' && WithoutDrive("..\\X.C") == "..\\X.C"
    ensures DriveOf("c:x.c", 'D') == 'C' && WithoutDrive("c:x.c") == "x.c"
    ensures DriveOf("d:/A/./B", 'C') == 'D' && WithoutDrive("d:/A/./B") == "/A/./B" && "/A/./B"[1..] == "A/./B"
  {
  }

  lemma SourceSlashes()
    ensures Slashes("SRC") == "SRC" && Slashes("..\\X.C") == "..\\X.C" && Slashes("x.c") == "x.c"
    ensures Slashes("A/./B") == "A\\.\\B"
  {
    hide Slashes;
  }

  lemma FoldedSources()
    ensures Folded("SRC" + "\\" + "..\\X.C") == "X.C" && Folded("SRC" + "\\" + "x.c") == "SRC\\x.c"
    ensures Folded("A\\.\\B") == "A\\B"
  {
    hide Folded;
    ParentUndone("", "SRC", "X.C");
    assert "SRC" + "\\..\\" + "X.C" == "SRC" + "\\" + "..\\X.C";
    NothingEntered("A", ".", "B");
    assert "A" + "\\" + ("." + "\\" + "B") == "A\\.\\B";
    PlainIsFixed("X.C");
    TwoParts("SRC", "x.c");
    TwoParts("A", "B");
    assert "SRC" + "\\" + "x.c" == "SRC\\x.c" && "A" + "\\" + "B" == "A\\B";
  }

  lemma PlainIsFixed(name: string)
    requires Ordinary(name)
    ensures Folded(name) == name
  {
    hide Folded;
    SplitPlain(name);
    OrdinaryIsFixed(name);
  }

  lemma TwoParts(a: string, b: string)
    requires Ordinary(a) && Ordinary(b)
    ensures Folded(a + "\\" + b) == a + "\\" + b
  {
    hide Folded;
    SplitConcat(a, b);
    SplitPlain(a);
    SplitPlain(b);
    assert a + "\\" + b == a + [SEP] + b;
    assert Split(a + "\\" + b) == [a, b];
    OrdinaryIsFixed(a + "\\" + b);
  }

  // ---- The last component ----

  /** `path` ends in a separator and `name`. */
  predicate EndsIn(path: string, name: string)
  {
    |name| < |path| && path[|path| - |name|..] == name && path[|path| - |name| - 1] == SEP
  }

  lemma {:induction false} SplitLast(a: string, name: string)
    requires SEP !in name
    ensures Split(a + [SEP] + name) == Split(a) + [name]
  {
    var s := a + [SEP] + name;
    if a == "" {
      assert s[1..] == name;
      SplitPlain(name);
    } else {
      assert s[1..] == a[1..] + [SEP] + name;
      SplitLast(a[1..], name);
      var rest := Split(a[1..]);
      assert (rest + [name])[0] == rest[0] && (rest + [name])[1..] == rest[1..] + [name];
      assert s[0] == a[0] && s[..1] == a[..1];
    }
  }

  lemma {:induction false} WalkLast(stack: seq<string>, parts: seq<string>, name: string)
    requires Ordinary(name)
    ensures Walk(stack, parts + [name]) == Walk(stack, parts) + [name]
    decreases parts
  {
    var all := parts + [name];
    if parts == [] {
      assert all[0] == name && all[1..] == [];
    } else {
      assert all[0] == parts[0] && all[1..] == parts[1..] + [name];
      WalkLast(Enter(stack, parts[0]), parts[1..], name);
    }
  }

  /** Folding keeps an ordinary last component. */
  lemma FoldedEndsIn(root: string, a: string, name: string)
    requires EndsIn(root + [SEP], "") && Ordinary(name)
    ensures EndsIn(root + [SEP] + Folded(a + [SEP] + name), name)
  {
    SplitLast(a, name);
    WalkLast([], Split(a), name);
    var stack := Walk([], Split(a)) + [name];
    if |stack| == 1 {
      assert stack == [name];
    } else {
      assert stack[..|stack| - 1] == Walk([], Split(a));
    }
  }

  /** A canonical path ends in the last component of the path it is made from. */
  lemma CanonicalEndsIn(path: string, name: string, current: char, cwd: char -> Option<string>)
    requires EndsIn(path, name) && |name| + 3 < |path| && Ordinary(name) && '/' !in name
    requires 'A' <= current <= 'Z' && Canonical(path, current, cwd).Some?
    ensures EndsIn(Canonical(path, current, cwd).value, name)
  {
    hide Folded;
    hide Combined;
    var combined := Combined(path, current, cwd).value;
    CombinedShape(path, current, cwd);
    CombinedEndsIn(path, name, current, cwd);
    var below := combined[3..];
    var a := below[..|below| - |name| - 1];
    assert below == a + [SEP] + name;
    var drive := combined[..2];
    assert combined[..3] == drive + [SEP];
    FoldedEndsIn(drive, a, name);
  }

  lemma CombinedEndsIn(path: string, name: string, current: char, cwd: char -> Option<string>)
    requires EndsIn(path, name) && |name| + 3 < |path| && SEP !in name && '/' !in name
    requires 'A' <= current <= 'Z' && Combined(path, current, cwd).Some?
    ensures EndsIn(Combined(path, current, cwd).value[3..], name)
  {
    var rest := WithoutDrive(path);
    assert EndsIn(rest, name) && |rest| > |name| + 1;
    var root := Root(DriveOf(path, current));
    if rest[0] == SEP || rest[0] == '/' {
      JoinEndsIn(root, rest[1..], name);
    } else {
      var out := PathJoin(root, cwd(DriveOf(path, current)).value).value;
      JoinEndsIn(out, rest, name);
    }
  }

  lemma JoinEndsIn(parent: string, rest: string, name: string)
    requires 3 <= |parent| && EndsIn(rest, name) && '/' !in name && PathJoin(parent, rest).Some?
    ensures EndsIn(PathJoin(parent, rest).value[3..], name)
  {
    var joined := PathJoin(parent, rest).value;
    var start := |joined| - |name|;
    assert forall i :: 0 <= i < |name| ==> joined[start + i] == name[i] by {
      forall i | 0 <= i < |name|
        ensures joined[start + i] == name[i]
      {
        assert rest[|rest| - |name| + i] == name[i] && name[i] in name;
      }
    }
    assert joined[3..][|joined[3..]| - |name|..] == name;
  }

  /** The shape of a canonical path on DOS. */
  lemma CanonicalShape(path: string, current: char, cwd: char -> Option<string>)
    requires 'A' <= current <= 'Z' && Canonical(path, current, cwd).Some?
    ensures
      var c := Canonical(path, current, cwd).value;
      3 <= |c| < LIMIT && c[..3] == Root(DriveOf(path, current)) && 'A' <= c[0] <= 'Z' && '/' !in c
  {
    hide Folded;
    hide Combined;
    CombinedShape(path, current, cwd);
    var combined := Combined(path, current, cwd).value;
    FoldedLength(combined[3..]);
    FoldedHasNoSlash(combined[3..]);
  }

  lemma {:induction false} FoldedIsShorter(parts: seq<string>, stack: seq<string>)
    ensures |Join(Walk(stack, parts))| <= |Join(stack + parts)|
    decreases parts
  {
    if parts == [] {
      assert stack + parts == stack;
    } else {
      FoldedIsShorter(parts[1..], Enter(stack, parts[0]));
      EnterIsShorter(stack, parts[0], parts[1..]);
      assert stack + parts == stack + [parts[0]] + parts[1..];
    }
  }

  lemma {:induction false} JoinLength(parts: seq<string>)
    requires parts != []
    ensures |Join(parts)| + 1 == Lengths(parts)
  {
    if |parts| > 1 {
      JoinLength(parts[..|parts| - 1]);
    } else {
      assert Lengths(parts[..0]) == 0;
    }
  }

  lemma EnterIsShorter(stack: seq<string>, part: string, rest: seq<string>)
    ensures |Join(Enter(stack, part) + rest)| <= |Join(stack + [part] + rest)|
  {
    var after, all := Enter(stack, part) + rest, stack + [part] + rest;
    JoinLength(all);
    LengthsConcat(Enter(stack, part), rest);
    LengthsConcat(stack + [part], rest);
    LengthsConcat(stack, [part]);
    if after != [] {
      JoinLength(after);
    }
  }

  /** Canonicalising twice gives the same path, unless that path has exactly 1023 characters: the
      second time it does not fit. */
  lemma CanonicalTwice(path: string, current: char, cwd: char -> Option<string>, again: char, cwd2: char -> Option<string>)
    requires 'A' <= current <= 'Z' && Canonical(path, current, cwd).Some?
    ensures
      var c := Canonical(path, current, cwd).value;
      Canonical(c, again, cwd2) == (if |c| <= LIMIT - 2 then Some(c) else None)
  {
    hide Folded;
    CombinedShape(path, current, cwd);
    var combined := Combined(path, current, cwd).value;
    var c := Canonical(path, current, cwd).value;
    var text := Folded(combined[3..]);
    FoldingTwice(combined[3..]);
    FoldedHasNoSlash(combined[3..]);
    FoldedLength(combined[3..]);
    assert WithoutDrive(c)[1..] == text && DriveOf(c, again) == c[0];
    SlashesNothing(Root(c[0]) + "" + text);
    assert c == Root(c[0]) + text && c[3..] == text && c[..3] == Root(c[0]);
    assert Root(c[0]) + "" + text == c;
    assert WithoutDrive(c)[0] == SEP;
    assert Combined(c, again, cwd2) == PathJoin(Root(c[0]), text);
  }

  function Letters(n: nat, c: char): (s: string)
    ensures |s| == n && forall i :: 0 <= i < n ==> s[i] == c
  {
    seq(n, i => c)
  }

  lemma PlainCombined(path: string, directory: string, cwd: char -> Option<string>)
    requires path != "" && SEP !in path && '/' !in path && ':' !in path
    requires directory != "" && SEP !in directory && '/' !in directory && cwd('C') == Some(directory)
    requires |directory| + |path| + 5 <= LIMIT
    ensures Combined(path, 'C', cwd) == Some(Root('C') + (directory + [SEP] + path))
  {
    hide Slashes;
    var out := Root('C') + directory;
    assert path[0] in path && (|path| >= 2 ==> path[1] in path);
    assert directory[|directory| - 1] in directory;
    assert Root('C') + "" + directory == out && out[|out| - 1] == directory[|directory| - 1];
    SlashesNothing(out);
    SlashesNothing(out + [SEP] + path);
    assert out + [SEP] + path == Root('C') + (directory + [SEP] + path);
  }

  /** The canonical path of a plain name in the current directory of a drive. */
  lemma PlainCanonical(path: string, directory: string, cwd: char -> Option<string>)
    requires Ordinary(path) && '/' !in path && ':' !in path
    requires Ordinary(directory) && '/' !in directory && cwd('C') == Some(directory)
    requires |directory| + |path| + 5 <= LIMIT
    ensures Canonical(path, 'C', cwd) == Some(Root('C') + (directory + [SEP] + path))
  {
    hide Folded;
    hide Combined;
    hide Split;
    var text := directory + [SEP] + path;
    PlainCombined(path, directory, cwd);
    SplitPlain(path);
    SplitAt(directory, path);
    OrdinaryIsFixed(text);
    assert (Root('C') + text)[3..] == text && (Root('C') + text)[..3] == Root('C');
  }

  /** A path of 1023 characters: a file name of 519 characters in a directory of 500. */
  lemma LongestIsRefused()
    ensures
      var cwd, path := (drive: char) => Some(Letters(500, 'A')), Letters(519, 'B');
      var c := Canonical(path, 'C', cwd);
      c.Some? && |c.value| == 1023 && Canonical(c.value, 'C', cwd) == None
  {
    hide Canonical;
    hide Letters;
    var cwd, path := (drive: char) => Some(Letters(500, 'A')), Letters(519, 'B');
    assert path[0] == 'B' && Letters(500, 'A')[0] == 'A';
    PlainCanonical(path, Letters(500, 'A'), cwd);
    CanonicalTwice(path, 'C', cwd, 'C', cwd);
  }

  lemma FoldedLength(s: string)
    ensures |Folded(s)| <= |s|
  {
    FoldedIsShorter(Split(s), []);
    JoinUndoesSplit(s);
    assert [] + Split(s) == Split(s);
  }

  lemma SlashesNothing(s: string)
    requires '/' !in s
    ensures Slashes(s) == s
  {
  }

  lemma {:induction false} WalkKeeps(stack: seq<string>, parts: seq<string>, c: char)
    requires forall i :: 0 <= i < |stack| ==> c !in stack[i]
    requires forall i :: 0 <= i < |parts| ==> c !in parts[i]
    ensures forall i :: 0 <= i < |Walk(stack, parts)| ==> c !in Walk(stack, parts)[i]
    decreases parts
  {
    if parts != [] {
      WalkKeeps(Enter(stack, parts[0]), parts[1..], c);
    }
  }

  lemma {:induction false} JoinKeeps(parts: seq<string>, c: char)
    requires c != SEP && forall i :: 0 <= i < |parts| ==> c !in parts[i]
    ensures c !in Join(parts)
  {
    if |parts| > 1 {
      JoinKeeps(parts[..|parts| - 1], c);
    }
  }

  lemma {:induction false} SplitKeeps(s: string, c: char)
    requires c !in s
    ensures forall i :: 0 <= i < |Split(s)| ==> c !in Split(s)[i]
  {
    if s != "" {
      SplitKeeps(s[1..], c);
    }
  }

  lemma FoldedHasNoSlash(s: string)
    requires '/' !in s
    ensures '/' !in Folded(s)
  {
    SplitKeeps(s, '/');
    WalkKeeps([], Split(s), '/');
    JoinKeeps(Walk([], Split(s)), '/');
  }

  /** Stores the canonical path, ended by a NUL, in `out`. */
  method PathCanonical(path: string, current: char, cwd: char -> Option<string>, out: array<char>)
    returns (ok: bool, ghost length: nat)
    requires 'A' <= current <= 'Z' && out.Length == LIMIT
    requires Combined(path, current, cwd).Some? ==> '\0' !in Combined(path, current, cwd).value
    modifies out
    ensures ok == Canonical(path, current, cwd).Some?
    ensures ok ==> length < LIMIT && out[..length] == Canonical(path, current, cwd).value && out[length] == '\0'
  {
    hide Folded;
    ok, length := false, 0;
    if |path| >= LIMIT {
      return;
    }
    var text := Combined(path, current, cwd);
    if text.None? {
      return;
    }
    CombinedShape(path, current, cwd);
    hide Combined;
    var combined := new char[LIMIT](_ => '\0');
    forall i | 0 <= i < |text.value| {
      combined[i] := text.value[i];
    }
    assert combined[..|text.value|] == text.value;
    forall i | 0 <= i < 3 {
      out[i] := text.value[i];
    }
    assert out[..3] == text.value[..3] && combined[..|text.value|] == text.value;
    assert combined[3..|text.value|] == combined[..|text.value|][3..];
    length := Fold(combined, out, |text.value|);
    assert out[..length] == out[..3] + out[3..length];
    ok := true;
  }
}
