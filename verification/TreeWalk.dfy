/** The file tree walk of unix/ftw.c: a recursion that shares at most `descriptors` open directory
    streams, closing an ancestor's stream when the slots run out and reopening it on the way back. */
module TreeWalk {
  import opened Wrappers

  const PATH_MAX: nat := 1024

  // ---------- the file system and the callback ----------

  /** What stat and opendir say about a path.  `broken`: readdir ends with an error. */
  datatype Entry =
    | StatError
    | StatDenied
    | Plain
    | DirError
    | DirDenied
    | Dir(names: seq<string>, broken: bool)

  /** A static file system; a path that leads nowhere is a StatError. */
  type FileSystem = string -> Entry

  datatype Flag = FTW_F | FTW_D | FTW_DNR | FTW_NS

  datatype Call = Call(file: string, flag: Flag)

  /** The callback may depend on everything it was called with before; the last call is the
      present one. */
  type Callback = seq<Call> -> int

  ghost predicate NulFree(s: string) { '\0' !in s }

  /** readdir hands out C strings, and the empty path names nothing (section 4.13 of POSIX.1-2008). */
  ghost predicate IsFileSystem(fs: FileSystem) {
    && fs("").StatError?
    && forall p: string :: fs(p).Dir? ==> forall n <- fs(p).names :: NulFree(n)
  }

  predicate IsDot(name: string) { name == "." || name == ".." }

  // ---------- the plain recursive preorder ----------

  datatype Outcome = Outcome(calls: seq<Call>, ret: int)

  function Report(cb: Callback, calls: seq<Call>, call: Call): Outcome {
    Outcome(calls + [call], cb(calls + [call]))
  }

  function Visit(fs: FileSystem, cb: Callback, path: string, calls: seq<Call>): Outcome
    requires |path| <= PATH_MAX
    decreases PATH_MAX - |path|, 1, 0
  {
    match fs(path)
    case StatError => Outcome(calls, -1)
    case DirError => Outcome(calls, -1)
    case StatDenied => Report(cb, calls, Call(path, FTW_NS))
    case Plain => Report(cb, calls, Call(path, FTW_F))
    case DirDenied => Report(cb, calls, Call(path, FTW_DNR))
    case Dir(names, broken) =>
      var r := Report(cb, calls, Call(path, FTW_D));
      if r.ret != 0 then r else VisitFrom(fs, cb, path, names, broken, 0, r.calls)
  }

  /** The entries of a directory from the i-th on. */
  function VisitFrom(fs: FileSystem, cb: Callback, path: string, names: seq<string>, broken: bool,
                     i: nat, calls: seq<Call>): Outcome
    requires |path| <= PATH_MAX && i <= |names|
    decreases PATH_MAX - |path|, 0, |names| - i
  {
    if i == |names| then Outcome(calls, if broken then -1 else 0)
    else if IsDot(names[i]) then VisitFrom(fs, cb, path, names, broken, i + 1, calls)
    else if |path| + 1 + |names[i]| > PATH_MAX then Outcome(calls, -1)
    else
      var r := Visit(fs, cb, path + "/" + names[i], calls);
      if r.ret != 0 then r else VisitFrom(fs, cb, path, names, broken, i + 1, r.calls)
  }

  // ---------- the walk without its callback ----------

  /** All the calls a walk would make; `ok` is false when an error ends it. */
  datatype Listing = Listing(calls: seq<Call>, ok: bool)

  function Preorder(fs: FileSystem, path: string): Listing
    requires |path| <= PATH_MAX
    decreases PATH_MAX - |path|, 1, 0
  {
    match fs(path)
    case StatError => Listing([], false)
    case DirError => Listing([], false)
    case StatDenied => Listing([Call(path, FTW_NS)], true)
    case Plain => Listing([Call(path, FTW_F)], true)
    case DirDenied => Listing([Call(path, FTW_DNR)], true)
    case Dir(names, broken) =>
      var below := PreorderFrom(fs, path, names, broken, 0);
      Listing([Call(path, FTW_D)] + below.calls, below.ok)
  }

  function PreorderFrom(fs: FileSystem, path: string, names: seq<string>, broken: bool,
                        i: nat): Listing
    requires |path| <= PATH_MAX && i <= |names|
    decreases PATH_MAX - |path|, 0, |names| - i
  {
    if i == |names| then Listing([], !broken)
    else if IsDot(names[i]) then PreorderFrom(fs, path, names, broken, i + 1)
    else if |path| + 1 + |names[i]| > PATH_MAX then Listing([], false)
    else
      var first := Preorder(fs, path + "/" + names[i]);
      if !first.ok then first
      else
        var rest := PreorderFrom(fs, path, names, broken, i + 1);
        Listing(first.calls + rest.calls, rest.ok)
  }

  // ---------- which calls a walk makes ----------

  predicate IsError(e: Entry) { e.StatError? || e.DirError? }

  /** The call for a path. */
  function CallFor(fs: FileSystem, path: string): Call
    requires !IsError(fs(path))
  {
    Call(path, match fs(path)
               case Plain => FTW_F
               case Dir(_, _) => FTW_D
               case DirDenied => FTW_DNR
               case _ => FTW_NS)
  }

  /** An entry that a walk has to visit: any but the directory itself and its parent. */
  predicate IsEntry(names: seq<string>, n: string) { n in names && n != "." && n != ".." }

  /** There is nothing wrong with the entry, and it has its call. */
  predicate IsCalled(fs: FileSystem, calls: seq<Call>, path: string, n: string) {
    && |path| + 1 + |n| <= PATH_MAX && !IsError(fs(path + "/" + n))
    && CallFor(fs, path + "/" + n) in calls
  }

  ghost predicate AllCalled(fs: FileSystem, calls: seq<Call>, path: string, names: seq<string>) {
    forall n {:trigger IsEntry(names, n)} | IsEntry(names, n) :: IsCalled(fs, calls, path, n)
  }

  /** The directory was read to its end, and every entry of it has its call. */
  ghost predicate Visited(fs: FileSystem, calls: seq<Call>, path: string) {
    fs(path).Dir? && !fs(path).broken && AllCalled(fs, calls, path, fs(path).names)
  }

  ghost predicate Complete(fs: FileSystem, calls: seq<Call>) {
    forall c | c in calls && c.flag == FTW_D :: Visited(fs, calls, c.file)
  }

  lemma StillVisited(fs: FileSystem, calls: seq<Call>, more: seq<Call>)
    requires Complete(fs, calls) && forall c | c in calls :: c in more
    ensures forall c | c in calls && c.flag == FTW_D :: Visited(fs, more, c.file)
  {
    forall c | c in calls && c.flag == FTW_D ensures Visited(fs, more, c.file) {
      assert Visited(fs, calls, c.file);
      forall n | IsEntry(fs(c.file).names, n) ensures IsCalled(fs, more, c.file, n) {
        assert IsCalled(fs, calls, c.file, n);
      }
    }
  }

  /** A walk that no error ends calls its start and every entry of every directory it calls. */
  lemma {:induction false} PreorderIsComplete(fs: FileSystem, path: string)
    requires |path| <= PATH_MAX && Preorder(fs, path).ok
    ensures !IsError(fs(path)) && CallFor(fs, path) in Preorder(fs, path).calls
    ensures Complete(fs, Preorder(fs, path).calls)
    decreases PATH_MAX - |path|, 1, 0
  {
    if fs(path).Dir? {
      var names := fs(path).names;
      var below := PreorderFrom(fs, path, names, fs(path).broken, 0);
      EntriesAreComplete(fs, path, names, fs(path).broken, 0);
      assert names[0..] == names;
      var calls := [Call(path, FTW_D)] + below.calls;
      StillVisited(fs, below.calls, calls);
      forall n | IsEntry(names, n) ensures IsCalled(fs, calls, path, n) {
        assert IsCalled(fs, below.calls, path, n);
      }
    }
  }

  lemma {:induction false} EntriesAreComplete(fs: FileSystem, path: string, names: seq<string>, broken: bool, i: nat)
    requires |path| <= PATH_MAX && i <= |names| && PreorderFrom(fs, path, names, broken, i).ok
    ensures !broken
    ensures AllCalled(fs, PreorderFrom(fs, path, names, broken, i).calls, path, names[i..])
    ensures Complete(fs, PreorderFrom(fs, path, names, broken, i).calls)
    decreases PATH_MAX - |path|, 0, |names| - i
  {
    if i < |names| {
      var rest := PreorderFrom(fs, path, names, broken, i + 1).calls;
      var first := if IsDot(names[i]) then [] else Preorder(fs, path + "/" + names[i]).calls;
      var calls := first + rest;
      EntriesAreComplete(fs, path, names, broken, i + 1);
      if !IsDot(names[i]) { PreorderIsComplete(fs, path + "/" + names[i]); }
      StillVisited(fs, first, calls);
      StillVisited(fs, rest, calls);
      assert PreorderFrom(fs, path, names, broken, i).calls == calls;
      forall n | IsEntry(names[i..], n) ensures IsCalled(fs, calls, path, n) {
        if n != names[i] { assert IsEntry(names[i + 1..], n) && IsCalled(fs, rest, path, n); }
      }
    }
  }

  /** The call is for an entry of this directory. */
  ghost predicate IsCallIn(fs: FileSystem, path: string, names: seq<string>, c: Call) {
    exists n {:trigger IsEntry(names, n)} ::
      IsEntry(names, n) && !IsError(fs(path + "/" + n)) && c == CallFor(fs, path + "/" + n)
  }

  /** The call is for an entry of a directory that was called. */
  ghost predicate IsCallBelow(fs: FileSystem, calls: seq<Call>, c: Call) {
    exists d | d in calls :: d.flag == FTW_D && fs(d.file).Dir? && IsCallIn(fs, d.file, fs(d.file).names, c)
  }

  ghost predicate Belongs(fs: FileSystem, calls: seq<Call>, path: string, c: Call) {
    (!IsError(fs(path)) && c == CallFor(fs, path)) || IsCallBelow(fs, calls, c)
  }

  /** Nothing else is called, whether an error ends the walk or not. */
  lemma {:induction false} PreorderCallsEntries(fs: FileSystem, path: string, c: Call)
    requires |path| <= PATH_MAX && c in Preorder(fs, path).calls
    ensures Belongs(fs, Preorder(fs, path).calls, path, c)
    decreases PATH_MAX - |path|, 1, 0
  {
    if fs(path).Dir? {
      var top := Call(path, FTW_D);
      var below := PreorderFrom(fs, path, fs(path).names, fs(path).broken, 0).calls;
      var calls := Preorder(fs, path).calls;
      assert calls == [top] + below && top in calls;
      if c in below {
        EntriesAreCalls(fs, path, fs(path).names, fs(path).broken, 0, c);
        if IsCallBelow(fs, below, c) { StillBelow(fs, below, calls, c); }
      }
    }
  }

  lemma {:induction false} EntriesAreCalls(fs: FileSystem, path: string, names: seq<string>, broken: bool, i: nat,
                                           c: Call)
    requires |path| <= PATH_MAX && i <= |names| && c in PreorderFrom(fs, path, names, broken, i).calls
    ensures || IsCallIn(fs, path, names, c)
            || IsCallBelow(fs, PreorderFrom(fs, path, names, broken, i).calls, c)
    decreases PATH_MAX - |path|, 0, |names| - i
  {
    if i < |names| {
      if IsDot(names[i]) {
        EntriesAreCalls(fs, path, names, broken, i + 1, c);
      } else if |path| + 1 + |names[i]| <= PATH_MAX {
        var sub := path + "/" + names[i];
        var first, rest := Preorder(fs, sub).calls, PreorderFrom(fs, path, names, broken, i + 1).calls;
        var calls := PreorderFrom(fs, path, names, broken, i).calls;
        assert calls == if Preorder(fs, sub).ok then first + rest else first;
        assert IsEntry(names, names[i]);
        if c in first {
          PreorderCallsEntries(fs, sub, c);
          if IsCallBelow(fs, first, c) { StillBelow(fs, first, calls, c); }
        } else {
          EntriesAreCalls(fs, path, names, broken, i + 1, c);
          if IsCallBelow(fs, rest, c) { StillBelow(fs, rest, calls, c); }
        }
      }
    }
  }

  lemma StillBelow(fs: FileSystem, calls: seq<Call>, more: seq<Call>, c: Call)
    requires IsCallBelow(fs, calls, c) && forall d | d in calls :: d in more
    ensures IsCallBelow(fs, more, c)
  {
  }

  /** Something is wrong with a directory: reading it, the length of a path, or asking about it. */
  ghost predicate Faulty(fs: FileSystem, path: string, names: seq<string>, broken: bool) {
    broken || exists n {:trigger IsEntry(names, n)} ::
                IsEntry(names, n) && (|path| + 1 + |n| > PATH_MAX || IsError(fs(path + "/" + n)))
  }

  ghost predicate FaultBelow(fs: FileSystem, calls: seq<Call>) {
    exists d | d in calls :: d.flag == FTW_D && fs(d.file).Dir?
                             && Faulty(fs, d.file, fs(d.file).names, fs(d.file).broken)
  }

  /** And an error ends the walk only if there is one. */
  lemma {:induction false} PreorderFailsOnFault(fs: FileSystem, path: string)
    requires |path| <= PATH_MAX && !Preorder(fs, path).ok
    ensures IsError(fs(path)) || FaultBelow(fs, Preorder(fs, path).calls)
    decreases PATH_MAX - |path|, 1, 0
  {
    if fs(path).Dir? {
      var below := PreorderFrom(fs, path, fs(path).names, fs(path).broken, 0).calls;
      var calls := Preorder(fs, path).calls;
      assert calls == [Call(path, FTW_D)] + below && Call(path, FTW_D) in calls;
      EntriesFailOnFault(fs, path, fs(path).names, fs(path).broken, 0);
      if FaultBelow(fs, below) { StillFaulty(fs, below, calls); }
    }
  }

  lemma {:induction false} EntriesFailOnFault(fs: FileSystem, path: string, names: seq<string>, broken: bool, i: nat)
    requires |path| <= PATH_MAX && i <= |names| && !PreorderFrom(fs, path, names, broken, i).ok
    ensures Faulty(fs, path, names, broken) || FaultBelow(fs, PreorderFrom(fs, path, names, broken, i).calls)
    decreases PATH_MAX - |path|, 0, |names| - i
  {
    if i < |names| {
      if IsDot(names[i]) {
        EntriesFailOnFault(fs, path, names, broken, i + 1);
      } else {
        assert IsEntry(names, names[i]);
        if |path| + 1 + |names[i]| <= PATH_MAX {
          var sub := path + "/" + names[i];
          if !Preorder(fs, sub).ok {
            PreorderFailsOnFault(fs, sub);
          } else {
            EntriesFailOnFault(fs, path, names, broken, i + 1);
            var rest := PreorderFrom(fs, path, names, broken, i + 1).calls;
            if FaultBelow(fs, rest) { StillFaulty(fs, rest, PreorderFrom(fs, path, names, broken, i).calls); }
          }
        }
      }
    }
  }

  lemma StillFaulty(fs: FileSystem, calls: seq<Call>, more: seq<Call>)
    requires FaultBelow(fs, calls) && forall d | d in calls :: d in more
    ensures FaultBelow(fs, more)
  {
  }

  /** Make the listed calls until one returns nonzero. */
  function Cut(cb: Callback, past: seq<Call>, l: Listing): Outcome
    decreases |l.calls|
  {
    if l.calls == [] then Outcome(past, if l.ok then 0 else -1)
    else
      var r := Report(cb, past, l.calls[0]);
      if r.ret != 0 then r else Cut(cb, r.calls, Listing(l.calls[1..], l.ok))
  }

  /** What cutting means: the calls made are the listed ones up to the first nonzero return. */
  lemma {:induction false} CutAtFirstNonzero(cb: Callback, past: seq<Call>, l: Listing)
    returns (k: nat)
    ensures k <= |l.calls|
    ensures Cut(cb, past, l).calls == past + l.calls[..k]
    ensures forall j | 0 < j < k :: cb(past + l.calls[..j]) == 0
    ensures if k > 0 && cb(past + l.calls[..k]) != 0
            then Cut(cb, past, l).ret == cb(past + l.calls[..k])
            else k == |l.calls| && Cut(cb, past, l).ret == if l.ok then 0 else -1
    decreases |l.calls|
  {
    if l.calls == [] {
      k := 0;
      assert past + l.calls[..0] == past;
    } else {
      var first := past + [l.calls[0]];
      assert past + l.calls[..1] == first;
      k := 1;
      if cb(first) == 0 {
        var rest := Listing(l.calls[1..], l.ok);
        var m := CutAtFirstNonzero(cb, first, rest);
        k := m + 1;
        forall j | 0 < j <= k ensures past + l.calls[..j] == first + rest.calls[..j - 1] {
        }
        forall j | 0 < j < k ensures cb(past + l.calls[..j]) == 0 {
          assert j > 1 ==> cb(first + rest.calls[..j - 1]) == 0;
          assert j == 1 ==> first + rest.calls[..0] == first;
        }
        assert m == 0 ==> first + rest.calls[..0] == first;
      }
    }
  }

  lemma {:induction false} CutAppend(cb: Callback, past: seq<Call>, a: seq<Call>, l: Listing)
    ensures var r := Cut(cb, past, Listing(a, true));
            Cut(cb, past, Listing(a + l.calls, l.ok)) == if r.ret != 0 then r else Cut(cb, r.calls, l)
    decreases |a|
  {
    if a == [] {
      assert a + l.calls == l.calls;
    } else {
      assert (a + l.calls)[1..] == a[1..] + l.calls;
      CutAppend(cb, Report(cb, past, a[0]).calls, a[1..], l);
    }
  }

  /** The recursion with a callback makes the calls of the one without, cut. */
  lemma {:induction false} VisitIsCut(fs: FileSystem, cb: Callback, path: string, past: seq<Call>)
    requires |path| <= PATH_MAX
    ensures Visit(fs, cb, path, past) == Cut(cb, past, Preorder(fs, path))
    decreases PATH_MAX - |path|, 1, 0
  {
    if fs(path).Dir? {
      var below := PreorderFrom(fs, path, fs(path).names, fs(path).broken, 0);
      VisitFromIsCut(fs, cb, path, fs(path).names, fs(path).broken, 0,
                     past + [Call(path, FTW_D)]);
      assert ([Call(path, FTW_D)] + below.calls)[1..] == below.calls;
    }
  }

  lemma {:induction false} VisitFromIsCut(fs: FileSystem, cb: Callback, path: string,
      names: seq<string>, broken: bool, i: nat, past: seq<Call>)
    requires |path| <= PATH_MAX && i <= |names|
    ensures VisitFrom(fs, cb, path, names, broken, i, past)
            == Cut(cb, past, PreorderFrom(fs, path, names, broken, i))
    decreases PATH_MAX - |path|, 0, |names| - i
  {
    if i == |names| {
    } else if IsDot(names[i]) {
      VisitFromIsCut(fs, cb, path, names, broken, i + 1, past);
    } else if |path| + 1 + |names[i]| <= PATH_MAX {
      var sub := path + "/" + names[i];
      VisitIsCut(fs, cb, sub, past);
      var first := Preorder(fs, sub);
      if first.ok {
        CutAppend(cb, past, first.calls, PreorderFrom(fs, path, names, broken, i + 1));
        VisitFromIsCut(fs, cb, path, names, broken, i + 1, Visit(fs, cb, sub, past).calls);
      } else {
        CutNotOk(cb, past, first.calls);
      }
    }
  }

  lemma {:induction false} CutNotOk(cb: Callback, past: seq<Call>, calls: seq<Call>)
    ensures Cut(cb, past, Listing(calls, false)).ret != 0
    decreases |calls|
  {
    if calls != [] {
      CutNotOk(cb, past + [calls[0]], calls[1..]);
    }
  }

  /** The whole walk; the children of "/" are "/name". */
  function Walk(fs: FileSystem, start: string): Listing
    requires |start| <= PATH_MAX
  {
    if start == "/" && fs(start).Dir? then
      var below := PreorderFrom(fs, "", fs(start).names, fs(start).broken, 0);
      Listing([Call(start, FTW_D)] + below.calls, below.ok)
    else Preorder(fs, start)
  }

  /** The same for a whole walk: with an error only where there is a fault, and otherwise complete.
      The entries of "/" are called as "/name". */
  lemma WalkIsComplete(fs: FileSystem, start: string)
    requires |start| <= PATH_MAX
    ensures var w, base := Walk(fs, start), if start == "/" then "" else start;
            && (w.ok ==> !IsError(fs(start)) && CallFor(fs, start) in w.calls)
            && (w.ok && fs(start).Dir? ==> !fs(start).broken && AllCalled(fs, w.calls, base, fs(start).names))
            && (w.ok ==> forall c | c in w.calls && c.flag == FTW_D && c.file != start :: Visited(fs, w.calls, c.file))
            && (!w.ok ==> || IsError(fs(start))
                          || (fs(start).Dir? && Faulty(fs, base, fs(start).names, fs(start).broken))
                          || FaultBelow(fs, w.calls))
  {
    var w := Walk(fs, start);
    if start == "/" && fs(start).Dir? {
      var root := fs(start);
      var below := PreorderFrom(fs, "", root.names, root.broken, 0);
      assert root.names[0..] == root.names && w.calls == [Call(start, FTW_D)] + below.calls;
      assert Call(start, FTW_D) in w.calls;
      if w.ok {
        EntriesAreComplete(fs, "", root.names, root.broken, 0);
        StillVisited(fs, below.calls, w.calls);
        forall n | IsEntry(root.names, n) ensures IsCalled(fs, w.calls, "", n) {
          assert IsCalled(fs, below.calls, "", n);
        }
      } else {
        EntriesFailOnFault(fs, "", root.names, root.broken, 0);
        if FaultBelow(fs, below.calls) { StillFaulty(fs, below.calls, w.calls); }
      }
    } else if w.ok {
      PreorderIsComplete(fs, start);
      if fs(start).Dir? { assert Visited(fs, w.calls, start); }
    } else {
      PreorderFailsOnFault(fs, start);
    }
  }

  /** And no walk calls anything but its start and entries of directories it calls. */
  lemma WalkCallsEntries(fs: FileSystem, start: string, c: Call)
    requires |start| <= PATH_MAX && c in Walk(fs, start).calls
    ensures || (!IsError(fs(start)) && c == CallFor(fs, start))
            || (fs(start).Dir? && IsCallIn(fs, if start == "/" then "" else start, fs(start).names, c))
            || IsCallBelow(fs, Walk(fs, start).calls, c)
  {
    if start == "/" && fs(start).Dir? {
      var root, calls := fs(start), Walk(fs, start).calls;
      var below := PreorderFrom(fs, "", root.names, root.broken, 0).calls;
      assert calls == [Call(start, FTW_D)] + below;
      if c in below {
        EntriesAreCalls(fs, "", root.names, root.broken, 0, c);
        if IsCallBelow(fs, below, c) { StillBelow(fs, below, calls, c); }
      }
    } else {
      PreorderCallsEntries(fs, start, c);
    }
  }

  /** What a directory's call and the walk below it come to. */
  function Below(fs: FileSystem, cb: Callback, start: string, base: string): Outcome
    requires fs(start).Dir? && |base| <= PATH_MAX
  {
    var r := Report(cb, [], Call(start, FTW_D));
    if r.ret != 0 then r
    else VisitFrom(fs, cb, base, fs(start).names, fs(start).broken, 0, r.calls)
  }

  lemma WalkOfRootIsCut(fs: FileSystem, cb: Callback)
    requires fs("/").Dir?
    ensures Cut(cb, [], Walk(fs, "/")) == Below(fs, cb, "/", "")
  {
    var root := fs("/");
    CutCons(cb, [], Call("/", FTW_D), PreorderFrom(fs, "", root.names, root.broken, 0));
    VisitFromIsCut(fs, cb, "", root.names, root.broken, 0,
                   Report(cb, [], Call("/", FTW_D)).calls);
  }

  lemma WalkIsCut(fs: FileSystem, cb: Callback, start: string)
    requires |start| <= PATH_MAX && (start == "/" ==> !fs(start).Dir?)
    ensures Cut(cb, [], Walk(fs, start)) == Visit(fs, cb, start, [])
  {
    VisitIsCut(fs, cb, start, []);
  }

  lemma CutCons(cb: Callback, past: seq<Call>, call: Call, l: Listing)
    ensures var r := Report(cb, past, call);
            Cut(cb, past, Listing([call] + l.calls, l.ok)) == if r.ret != 0 then r else Cut(cb, r.calls, l)
  {
    assert ([call] + l.calls)[1..] == l.calls;
  }

  // ---------- the walk of "/" ----------

  /** Whether the walk of an entry opens, or is denied, a directory d levels further down: such a
      directory gets the slot of the one that is `descriptors` levels above it. */
  predicate Takes(fs: FileSystem, path: string, d: nat)
    decreases d, 0
  {
    match fs(path)
    case Dir(names, _) => d == 0 || TakesAmong(fs, path, names, |names|, d - 1)
    case DirDenied => d == 0
    case _ => false
  }

  /** The same for one of the first n entries of a directory. */
  predicate TakesAmong(fs: FileSystem, path: string, names: seq<string>, n: nat, d: nat)
    requires n <= |names|
    decreases d, 1, n
  {
    n > 0 && (TakesAmong(fs, path, names, n - 1, d)
              || (!IsDot(names[n - 1]) && Takes(fs, path + "/" + names[n - 1], d)))
  }

  /** The entries of "/" from the i-th on. Once its slot has been taken the walk ends, because it
      tries to reopen "". */
  function RootFrom(fs: FileSystem, cb: Callback, names: seq<string>, broken: bool, i: nat,
                    calls: seq<Call>, d: nat): Outcome
    requires i <= |names|
    decreases |names| - i
  {
    if i == |names| then Outcome(calls, if broken then -1 else 0)
    else if IsDot(names[i]) then RootFrom(fs, cb, names, broken, i + 1, calls, d)
    else if 1 + |names[i]| > PATH_MAX then Outcome(calls, -1)
    else
      var r := Visit(fs, cb, "" + "/" + names[i], calls);
      if r.ret != 0 then r
      else if Takes(fs, "" + "/" + names[i], d) then Outcome(r.calls, -1)
      else RootFrom(fs, cb, names, broken, i + 1, r.calls, d)
  }

  function RootWalk(fs: FileSystem, cb: Callback, descriptors: nat): Outcome
    requires fs("/").Dir? && descriptors > 0
  {
    var r := Report(cb, [], Call("/", FTW_D));
    if r.ret != 0 then r
    else RootFrom(fs, cb, fs("/").names, fs("/").broken, 0, r.calls, descriptors - 1)
  }

  lemma {:induction false} TakenStays(fs: FileSystem, path: string, names: seq<string>, m: nat, n: nat, d: nat)
    requires m <= n <= |names| && TakesAmong(fs, path, names, m, d)
    ensures TakesAmong(fs, path, names, n, d)
    decreases n
  {
    if m < n { TakenStays(fs, path, names, m, n - 1, d); }
  }

  lemma {:induction false} RootFromIsRight(fs: FileSystem, cb: Callback, names: seq<string>, broken: bool,
                                           i: nat, calls: seq<Call>, d: nat)
    requires i <= |names|
    ensures var r := RootFrom(fs, cb, names, broken, i, calls, d);
            var v := VisitFrom(fs, cb, "", names, broken, i, calls);
            && (!TakesAmong(fs, "", names, |names|, d) ==> r == v)
            && (v.ret == 0 && TakesAmong(fs, "", names, |names|, d) && !TakesAmong(fs, "", names, i, d)
                ==> r.ret == -1)
    decreases |names| - i
  {
    if i < |names| {
      if IsDot(names[i]) {
        RootFromIsRight(fs, cb, names, broken, i + 1, calls, d);
      } else if 1 + |names[i]| <= PATH_MAX {
        if TakesAmong(fs, "", names, i + 1, d) { TakenStays(fs, "", names, i + 1, |names|, d); }
        RootFromIsRight(fs, cb, names, broken, i + 1,
                        Visit(fs, cb, "" + "/" + names[i], calls).calls, d);
      }
    }
  }

  /** The walk of "/" is right if no directory is `descriptors` levels below it. If there is one, a
      walk that should have succeeded fails. */
  lemma RootWalkIsRight(fs: FileSystem, cb: Callback, descriptors: nat)
    requires fs("/").Dir? && descriptors > 0
    ensures var names := fs("/").names;
            var taken := TakesAmong(fs, "", names, |names|, descriptors - 1);
            var w := Cut(cb, [], Walk(fs, "/"));
            && (!taken ==> RootWalk(fs, cb, descriptors) == w)
            && (w.ret == 0 && taken ==> RootWalk(fs, cb, descriptors).ret == -1)
  {
    var root := fs("/");
    WalkOfRootIsCut(fs, cb);
    RootFromIsRight(fs, cb, root.names, root.broken, 0, Report(cb, [], Call("/", FTW_D)).calls,
                    descriptors - 1);
  }

  /** Whether no callback sees that the slot of "/" is lost, from the i-th entry on: what takes it is
      not reached, because an error ends the walk before, or comes just before an error. */
  predicate Harmless(fs: FileSystem, names: seq<string>, broken: bool, i: nat, d: nat)
    requires i <= |names|
    decreases |names| - i
  {
    i == |names|
    || if IsDot(names[i]) then Harmless(fs, names, broken, i + 1, d)
       else if 1 + |names[i]| > PATH_MAX then true
       else if !Preorder(fs, "" + "/" + names[i]).ok then true
       else if Takes(fs, "" + "/" + names[i], d) then
         PreorderFrom(fs, "", names, broken, i + 1) == Listing([], false)
       else Harmless(fs, names, broken, i + 1, d)
  }

  lemma {:induction false} HarmlessIsRight(fs: FileSystem, cb: Callback, names: seq<string>, broken: bool,
                                           i: nat, calls: seq<Call>, d: nat)
    requires i <= |names| && Harmless(fs, names, broken, i, d)
    ensures RootFrom(fs, cb, names, broken, i, calls, d) == VisitFrom(fs, cb, "", names, broken, i, calls)
    decreases |names| - i
  {
    if i == |names| {
    } else if IsDot(names[i]) {
      HarmlessIsRight(fs, cb, names, broken, i + 1, calls, d);
    } else if 1 + |names[i]| <= PATH_MAX {
      var sub := "" + "/" + names[i];
      var first, r := Preorder(fs, sub), Visit(fs, cb, sub, calls);
      VisitIsCut(fs, cb, sub, calls);
      if !first.ok {
        CutNotOk(cb, calls, first.calls);
      } else if Takes(fs, sub, d) {
        VisitFromIsCut(fs, cb, "", names, broken, i + 1, r.calls);
      } else {
        HarmlessIsRight(fs, cb, names, broken, i + 1, r.calls, d);
      }
    }
  }

  /** The callback that never stops the walk. */
  const GO_ON: Callback := calls => 0

  lemma {:induction false} CutAll(past: seq<Call>, l: Listing)
    ensures Cut(GO_ON, past, l) == Outcome(past + l.calls, if l.ok then 0 else -1)
    decreases |l.calls|
  {
    if l.calls == [] {
      assert past + l.calls == past;
    } else {
      CutAll(past + [l.calls[0]], Listing(l.calls[1..], l.ok));
      assert past + [l.calls[0]] + l.calls[1..] == past + l.calls;
    }
  }

  lemma {:induction false} HarmIsSeen(fs: FileSystem, names: seq<string>, broken: bool, i: nat,
                                      calls: seq<Call>, d: nat)
    requires i <= |names| && !Harmless(fs, names, broken, i, d)
    ensures RootFrom(fs, GO_ON, names, broken, i, calls, d) != VisitFrom(fs, GO_ON, "", names, broken, i, calls)
    decreases |names| - i
  {
    if IsDot(names[i]) {
      HarmIsSeen(fs, names, broken, i + 1, calls, d);
    } else {
      var sub := "" + "/" + names[i];
      var first, r := Preorder(fs, sub), Visit(fs, GO_ON, sub, calls);
      VisitIsCut(fs, GO_ON, sub, calls);
      CutAll(calls, first);
      if Takes(fs, sub, d) {
        VisitFromIsCut(fs, GO_ON, "", names, broken, i + 1, r.calls);
        CutAll(r.calls, PreorderFrom(fs, "", names, broken, i + 1));
      } else {
        HarmIsSeen(fs, names, broken, i + 1, r.calls, d);
      }
    }
  }

  /** The walk of "/" is right for every callback exactly if the loss is harmless. */
  lemma RootWalkRightIffHarmless(fs: FileSystem, descriptors: nat)
    requires fs("/").Dir? && descriptors > 0
    ensures (forall cb: Callback :: RootWalk(fs, cb, descriptors) == Cut(cb, [], Walk(fs, "/")))
            <==> Harmless(fs, fs("/").names, fs("/").broken, 0, descriptors - 1)
  {
    var root, d := fs("/"), descriptors - 1;
    if Harmless(fs, root.names, root.broken, 0, d) {
      forall cb: Callback ensures RootWalk(fs, cb, descriptors) == Cut(cb, [], Walk(fs, "/")) {
        WalkOfRootIsCut(fs, cb);
        HarmlessIsRight(fs, cb, root.names, root.broken, 0, Report(cb, [], Call("/", FTW_D)).calls, d);
      }
    } else {
      WalkOfRootIsCut(fs, GO_ON);
      HarmIsSeen(fs, root.names, root.broken, 0, Report(GO_ON, [], Call("/", FTW_D)).calls, d);
      assert RootWalk(fs, GO_ON, descriptors) != Cut(GO_ON, [], Walk(fs, "/"));
    }
  }

  /** "/" with one empty directory in it. */
  const ONE_DIRECTORY: FileSystem :=
    path => if path == "/" then Dir(["a"], false) else if path == "/a" then Dir([], false) else StatError

  /** With one descriptor its walk makes all the calls and then fails. */
  lemma RootWalkFails()
    ensures IsFileSystem(ONE_DIRECTORY)
    ensures RootWalk(ONE_DIRECTORY, GO_ON, 1) == Outcome([Call("/", FTW_D), Call("/a", FTW_D)], -1)
    ensures Cut(GO_ON, [], Walk(ONE_DIRECTORY, "/")) == Outcome([Call("/", FTW_D), Call("/a", FTW_D)], 0)
  {
    var fs := ONE_DIRECTORY;
    assert "" + "/" + "a" == "/a";
    var calls := [Call("/", FTW_D)] + [Call("/a", FTW_D)];
    assert Visit(fs, GO_ON, "/a", [Call("/", FTW_D)]) == Outcome(calls, 0);
    WalkOfRootIsCut(fs, GO_ON);
    assert VisitFrom(fs, GO_ON, "", ["a"], false, 1, calls) == Outcome(calls, 0);
  }

  // ---------- directory streams ----------

  datatype Stream = Stream(names: seq<string>, broken: bool, pos: nat)

  const NULL: int := -1

  function OpenIds(slots: seq<int>): set<int> {
    set id | id in slots && id != NULL
  }

  lemma {:induction false} OpenIdsBound(slots: seq<int>)
    ensures |OpenIds(slots)| <= |slots|
    ensures NULL in slots ==> |OpenIds(slots)| < |slots|
  {
    if slots != [] {
      var init, last := slots[..|slots| - 1], slots[|slots| - 1];
      OpenIdsBound(init);
      assert slots == init + [last];
      assert OpenIds(slots) == OpenIds(init) + (if last == NULL then {} else {last});
    }
  }

  /** The C string at the start of a buffer. */
  function CString(s: seq<char>): string {
    if s == [] || s[0] == '\0' then "" else [s[0]] + CString(s[1..])
  }

  lemma {:induction false} CStringPrefix(s: seq<char>, n: nat)
    requires n < |s| && NulFree(s[..n]) && s[n] == '\0'
    ensures CString(s) == s[..n]
  {
    if n > 0 {
      assert s[0] == s[..n][0];
      assert s[1..][..n - 1] == s[..n][1..];
      CStringPrefix(s[1..], n - 1);
    }
  }

  lemma TakesBelow(fs: FileSystem, path: string, d: nat)
    ensures Takes(fs, path, d) <==>
              || (d == 0 && (fs(path).Dir? || fs(path).DirDenied?))
              || (d > 0 && fs(path).Dir? && TakesAmong(fs, path, fs(path).names, |fs(path).names|, d - 1))
  {
  }

  lemma Wraps(level: nat, n: nat)
    requires level < n
    ensures (level + 1) % n == if level + 1 == n then 0 else level + 1
  {
  }

  class Walker {
    const fs: FileSystem
    const cb: Callback
    var calls: seq<Call>
    // the system's table of open directory streams
    var streams: map<int, Stream>
    var nextId: nat
    // the shared state of ftw_dir
    const dirs: array<int>
    const buf: array<char>

    /** No stream is leaked and no slot dangles. */
    ghost predicate Valid()
      reads this, dirs, buf
    {
      && buf.Length == PATH_MAX + 1
      && dirs.Length > 0
      && IsFileSystem(fs)
      && (forall k | 0 <= k < dirs.Length :: dirs[k] != NULL ==> dirs[k] in streams)
      && (forall id <- streams :: 0 <= id < nextId && id in dirs[..])
      && (forall j, k | 0 <= j < k < dirs.Length :: dirs[j] == dirs[k] ==> dirs[j] == NULL)
    }

    /** Every slot but one, if level is a slot, is as it was in an earlier state, or was closed since. */
    ghost predicate KeptOrClosed(slots: seq<int>, table: map<int, Stream>, level: nat)
      requires dirs.Length == |slots|
      reads this, dirs
    {
      forall k | 0 <= k < dirs.Length && k != level && dirs[k] != NULL ::
        && dirs[k] == slots[k]
        && dirs[k] in table && dirs[k] in streams && streams[dirs[k]] == table[dirs[k]]
    }

    constructor (fs: FileSystem, cb: Callback, descriptors: int)
      requires IsFileSystem(fs)
      ensures Valid() && streams == map[] && calls == []
      ensures this.fs == fs && this.cb == cb
      ensures dirs.Length == if descriptors <= 0 then 1 else descriptors
      ensures fresh(dirs) && fresh(buf)
      ensures forall k | 0 <= k < dirs.Length :: dirs[k] == NULL
    {
      this.fs, this.cb := fs, cb;
      calls, streams, nextId := [], map[], 0;
      dirs := new int[if descriptors <= 0 then 1 else descriptors](_ => NULL);
      buf := new char[PATH_MAX + 1](_ => '\0');
    }

    twostate lemma SlotsKept(k: nat)
      requires k < dirs.Length
      requires forall j | 0 <= j < dirs.Length && j != k :: dirs[j] == old(dirs[j])
      ensures forall id :: id in old(dirs[..]) && id != old(dirs[k]) ==> id in dirs[..]
    {
      forall id | id in old(dirs[..]) && id != old(dirs[k]) ensures id in dirs[..] {
        var j :| 0 <= j < dirs.Length && old(dirs[j]) == id;
        assert dirs[..][j] == id;
      }
    }

    /** An empty slot means that fewer than `descriptors` streams are open. */
    lemma RoomWhenNull(k: nat)
      requires Valid() && k < dirs.Length
      ensures |streams| <= dirs.Length
      ensures dirs[k] == NULL ==> |streams| < dirs.Length
    {
      OpenIdsBound(dirs[..]);
      assert dirs[..][k] == dirs[k];
      var open := OpenIds(dirs[..]);
      forall id <- open ensures id in streams {
        var j :| 0 <= j < dirs.Length && dirs[..][j] == id;
      }
      forall id <- streams ensures id in open {}
      assert streams.Keys == open;
    }

    /** opendir into an empty slot.  The precondition is the bound on open streams: there are
        fewer than `descriptors` whenever another one is opened. */
    method Opendir(k: nat, path: string) returns (denied: bool)
      requires Valid() && k < dirs.Length && dirs[k] == NULL
      requires |streams| < dirs.Length
      modifies this`streams, this`nextId, dirs
      ensures Valid()
      ensures forall j | 0 <= j < dirs.Length && j != k :: dirs[j] == old(dirs[j])
      ensures forall id <- old(streams) :: id in streams && streams[id] == old(streams[id])
      ensures denied == fs(path).DirDenied?
      ensures if fs(path).Dir?
              then dirs[k] in streams && dirs[k] !in old(streams)
                   && streams[dirs[k]] == Stream(fs(path).names, fs(path).broken, 0)
              else dirs[k] == NULL && streams == old(streams)
    {
      denied := fs(path).DirDenied?;
      if fs(path).Dir? {
        streams := streams[nextId as int := Stream(fs(path).names, fs(path).broken, 0)];
        label store:
        dirs[k] := nextId;
        nextId := nextId + 1;
        assert dirs[k] in dirs[..];
        SlotsKept@store(k);
      }
    }

    /** closedir of a slot's stream, which must be open. */
    method Closedir(k: nat)
      requires Valid() && k < dirs.Length && dirs[k] != NULL && dirs[k] in streams
      modifies this`streams, dirs
      ensures Valid() && dirs[k] == NULL
      ensures forall j | 0 <= j < dirs.Length && j != k :: dirs[j] == old(dirs[j])
      ensures streams == map id | id in old(streams) && id != old(dirs[k]) :: old(streams)[id]
    {
      var id := dirs[k];
      streams := map i | i in streams && i != id :: streams[i];
      label store:
      dirs[k] := NULL;
      SlotsKept@store(k);
    }

    /** The directory whose entries ftw_dir reads. */
    ghost predicate Reading(level: nat, names: seq<string>, broken: bool, got: nat)
      reads this, dirs
    {
      && level < dirs.Length
      && dirs[level] != NULL && dirs[level] in streams
      && got <= |names| && streams[dirs[level]] == Stream(names, broken, got)
    }

    /** What is in the first slot: NULL if it has been taken since. */
    ghost predicate First(was: int, taken: bool)
      requires dirs.Length > 0
      reads this, dirs
    {
      dirs[0] == if taken then NULL else was
    }

    /** readdir: the next name, or NULL at the end; `failed` is a nonzero errno there. */
    method Readdir(k: nat, ghost names: seq<string>, ghost broken: bool, ghost got: nat)
      returns (name: Option<string>, failed: bool)
      requires Valid() && Reading(k, names, broken, got)
      modifies this`streams
      ensures Valid() && KeptOrClosed(old(dirs[..]), old(streams), k)
      ensures if got < |names|
              then name == Some(names[got]) && Reading(k, names, broken, got + 1)
              else name == None && failed == broken && Reading(k, names, broken, got)
    {
      var d := streams[dirs[k]];
      if d.pos < |d.names| {
        streams := streams[dirs[k] := d.(pos := d.pos + 1)];
        return Some(d.names[d.pos]), false;
      }
      return None, d.broken;
    }

    lemma KeptTransitive(slots: seq<int>, table: map<int, Stream>,
                         slots1: seq<int>, table1: map<int, Stream>, level: nat)
      requires dirs.Length == |slots| == |slots1|
      requires forall k | 0 <= k < |slots| && k != level && slots1[k] != NULL ::
                 slots1[k] == slots[k] && slots1[k] in table && slots1[k] in table1
                 && table1[slots1[k]] == table[slots1[k]]
      requires KeptOrClosed(slots1, table1, level)
      ensures KeptOrClosed(slots, table, level)
    {
    }

    /** dir[len] = '/' and memcpy of the name with its NUL; the C string this makes. */
    method PutName(len: nat, name: string) returns (path: string)
      requires buf.Length == PATH_MAX + 1 && len + 1 + |name| <= PATH_MAX
      requires NulFree(buf[..len]) && NulFree(name)
      modifies buf
      ensures path == old(buf[..len]) + "/" + name
      ensures buf[..len + 1 + |name|] == path && buf[..len] == old(buf[..len])
      ensures NulFree(path)
    {
      ghost var dir := buf[..len];
      buf[len] := '/';
      forall i | 0 <= i < |name| {
        buf[len + 1 + i] := name[i];
      }
      buf[len + 1 + |name|] := '\0';
      assert buf[..len + 1 + |name|] == dir + "/" + name;
      CStringPrefix(buf[..], len + 1 + |name|);
      path := CString(buf[..]);
    }

    /** What the walk of a directory's entries from the i-th on comes to. Only "/", whose path is
        empty here, cannot be opened again. */
    ghost function Rest(path: string, names: seq<string>, broken: bool, i: nat, past: seq<Call>): Outcome
      requires |path| <= PATH_MAX && i <= |names| && dirs.Length > 0
    {
      if path == "" then RootFrom(fs, cb, names, broken, i, past, dirs.Length - 1)
      else VisitFrom(fs, cb, path, names, broken, i, past)
    }

    method FtwDir(level: nat, len: nat, ghost names: seq<string>, ghost broken: bool) returns (ret: int)
      requires Valid() && len <= PATH_MAX && NulFree(buf[..len]) && Reading(level, names, broken, 0)
      requires forall n <- names :: NulFree(n)
      requires if len == 0 then level == 0 else fs(buf[..len]) == Dir(names, broken)
      modifies this`calls, this`streams, this`nextId, dirs, buf
      ensures Valid() && buf[..len] == old(buf[..len])
      ensures Outcome(calls, ret) == Rest(old(buf[..len]), names, broken, 0, old(calls))
      ensures KeptOrClosed(old(dirs[..]), old(streams), level)
      ensures ret == 0 && level != 0 ==>
                First(old(dirs[0]), TakesAmong(fs, old(buf[..len]), names, |names|, dirs.Length - 1 - level))
      decreases PATH_MAX - len, 1
    {
      ghost var path := buf[..len];
      ghost var slots, table := dirs[..], streams;
      ghost var whole := Rest(path, names, broken, 0, calls);
      var got := 0;
      while true
        invariant Valid() && buf[..len] == path
        invariant Reading(level, names, broken, got)
        invariant KeptOrClosed(slots, table, level)
        invariant whole == Rest(path, names, broken, got, calls)
        invariant level != 0 ==> First(slots[0], TakesAmong(fs, path, names, got, dirs.Length - 1 - level))
        decreases |names| - got
      {
        var entry, failed := Readdir(level, names, broken, got);
        if entry == None {
          return if failed then -1 else 0;
        }
        var name := entry.value;
        got := got + 1;
        if IsDot(name) {
          continue;
        }
        if |name| + len + 1 > PATH_MAX {
          return -1;
        }
        ghost var slots1, table1 := dirs[..], streams;
        ret := VisitEntry(level, len, name, got, names, broken);
        KeptTransitive(slots, table, slots1, table1, level);
        if ret != 0 {
          return ret;
        }
      }
    }

    /** stat, and for a directory opendir into the next slot, which may belong to an ancestor. */
    method OpenEntry(newlev: nat, path: string) returns (ok: bool, flag: Flag)
      requires Valid() && newlev < dirs.Length
      modifies this`streams, this`nextId, dirs
      ensures Valid()
      ensures ok == !(fs(path).StatError? || fs(path).DirError?)
      ensures flag == match fs(path)
                             case StatError => FTW_NS
                             case DirError => FTW_DNR
                             case StatDenied => FTW_NS
                             case Plain => FTW_F
                             case DirDenied => FTW_DNR
                             case _ => FTW_D
      ensures flag == FTW_D ==> Reading(newlev, fs(path).names, fs(path).broken, 0)
      ensures ok && flag != FTW_D ==> dirs[newlev] == if flag == FTW_DNR then NULL else old(dirs[newlev])
      ensures flag != FTW_D && dirs[newlev] != NULL ==>
                dirs[newlev] == old(dirs[newlev]) && streams[dirs[newlev]] == old(streams[dirs[newlev]])
      ensures forall k | 0 <= k < dirs.Length && k != newlev :: dirs[k] == old(dirs[k])
      ensures KeptOrClosed(old(dirs[..]), old(streams), newlev)
    {
      var entry := fs(path);
      if entry.StatError? {
        return false, FTW_NS;
      } else if entry.StatDenied? {
        return true, FTW_NS;
      } else if entry.Plain? {
        return true, FTW_F;
      }
      if dirs[newlev] != NULL {
        Closedir(newlev);
      }
      RoomWhenNull(newlev);
      var denied := Opendir(newlev, path);
      if dirs[newlev] != NULL {
        return true, FTW_D;
      }
      return denied, FTW_DNR;
    }

    /** The call for a path, the walk below it, and the end of its stream. */
    method Enter(newlev: nat, sublen: nat, path: string, flag: Flag) returns (ret: int)
      requires Valid() && newlev < dirs.Length
      requires 0 < sublen <= PATH_MAX && buf[..sublen] == path && NulFree(path)
      requires flag == FTW_D ==> fs(path).Dir? && Reading(newlev, fs(path).names, fs(path).broken, 0)
      modifies this`calls, this`streams, this`nextId, dirs, buf
      ensures Valid() && buf[..sublen] == path
      ensures var r := Report(cb, old(calls), Call(path, flag));
              Outcome(calls, ret) ==
              if flag != FTW_D || r.ret != 0 then r
              else VisitFrom(fs, cb, path, fs(path).names, fs(path).broken, 0, r.calls)
      ensures flag == FTW_D ==> dirs[newlev] == NULL
      ensures flag != FTW_D ==> dirs[..] == old(dirs[..]) && streams == old(streams)
      ensures KeptOrClosed(old(dirs[..]), old(streams), newlev)
      ensures ret == 0 && flag == FTW_D && newlev != 0 ==>
                First(old(dirs[0]), TakesAmong(fs, path, fs(path).names, |fs(path).names|, dirs.Length - 1 - newlev))
      decreases PATH_MAX - sublen, 2
    {
      calls := calls + [Call(path, flag)];
      ret := cb(calls);
      if flag == FTW_D {
        if ret == 0 {
          ret := FtwDir(newlev, sublen, fs(path).names, fs(path).broken);
        }
        if dirs[newlev] != NULL {
          Closedir(newlev);
        }
      }
    }

    /** One entry of the directory: stat it, open it in the next slot if it is a directory, report
        it, walk it, and make sure that our own stream is there again. */
    method VisitEntry(level: nat, len: nat, name: string, got: nat,
                      ghost names: seq<string>, ghost broken: bool) returns (ret: int)
      requires Valid() && len + 1 + |name| <= PATH_MAX
      requires NulFree(buf[..len]) && NulFree(name) && Reading(level, names, broken, got)
      requires if len == 0 then level == 0 else fs(buf[..len]) == Dir(names, broken)
      modifies this`calls, this`streams, this`nextId, dirs, buf
      ensures Valid() && buf[..len] == old(buf[..len])
      ensures var sub := old(buf[..len]) + "/" + name;
              var r := Visit(fs, cb, sub, old(calls));
              && calls == r.calls
              && ret == (if r.ret == 0 && len == 0 && Takes(fs, sub, dirs.Length - 1) then -1 else r.ret)
              && (ret == 0 && level != 0 ==> First(old(dirs[0]), Takes(fs, sub, dirs.Length - 1 - level)))
      ensures ret == 0 ==> Reading(level, names, broken, got)
      ensures KeptOrClosed(old(dirs[..]), old(streams), level)
      decreases PATH_MAX - len, 0
    {
      ret := WalkEntry(level, len, name, got, names, broken);
      if ret != 0 {
        return;
      }
      if dirs[level] == NULL {
        var ok := Reopen(level, len, got, names, broken);
        if !ok {
          return -1;
        }
      }
    }

    method WalkEntry(level: nat, len: nat, name: string, ghost got: nat,
                     ghost names: seq<string>, ghost broken: bool) returns (ret: int)
      requires Valid() && len + 1 + |name| <= PATH_MAX
      requires NulFree(buf[..len]) && NulFree(name) && Reading(level, names, broken, got)
      modifies this`calls, this`streams, this`nextId, dirs, buf
      ensures Valid() && buf[..len] == old(buf[..len])
      ensures var sub := old(buf[..len]) + "/" + name;
              && Outcome(calls, ret) == Visit(fs, cb, sub, old(calls))
              && (ret == 0 ==> First(old(dirs[0]), Takes(fs, sub, dirs.Length - 1 - level)))
      ensures ret == 0 && dirs[level] != NULL ==> Reading(level, names, broken, got)
      ensures KeptOrClosed(old(dirs[..]), old(streams), level)
      decreases PATH_MAX - len - 1, 4
    {
      ghost var dir := buf[..len];
      var sublen := len + 1 + |name|;
      var path := PutName(len, name);
      Wraps(level, dirs.Length);
      ret := WalkPath((level + 1) % dirs.Length, sublen, path);
      assert buf[..len] == buf[..sublen][..len] == path[..len] == dir;
    }

    /** stat and opendir into the slot newlev, then the call and the walk. */
    method WalkPath(newlev: nat, sublen: nat, path: string) returns (ret: int)
      requires Valid() && newlev < dirs.Length
      requires 0 < sublen <= PATH_MAX && buf[..sublen] == path && NulFree(path)
      modifies this`calls, this`streams, this`nextId, dirs, buf
      ensures Valid() && buf[..sublen] == path
      ensures Outcome(calls, ret) == Visit(fs, cb, path, old(calls))
      ensures ret == 0 ==>
                First(old(dirs[0]), Takes(fs, path, if newlev == 0 then 0 else dirs.Length - newlev))
      ensures KeptOrClosed(old(dirs[..]), old(streams), dirs.Length)
      decreases PATH_MAX - sublen, 3
    {
      TakesBelow(fs, path, if newlev == 0 then 0 else dirs.Length - newlev);
      var ok, flag := OpenEntry(newlev, path);
      if !ok {
        return -1;
      }
      ret := Enter(newlev, sublen, path, flag);
    }

    /** dir[len] = 0, opendir, and skip the entries that were read before. */
    method Reopen(level: nat, len: nat, got: nat, ghost names: seq<string>, ghost broken: bool)
      returns (ok: bool)
      requires Valid() && level < dirs.Length && dirs[level] == NULL
      requires len <= PATH_MAX && NulFree(buf[..len]) && got <= |names|
      requires len != 0 ==> fs(buf[..len]) == Dir(names, broken)
      modifies this`streams, this`nextId, dirs, buf
      ensures Valid() && buf[..len] == old(buf[..len]) && (ok <==> len != 0)
      ensures ok ==> Reading(level, names, broken, got)
      ensures KeptOrClosed(old(dirs[..]), old(streams), level)
      ensures forall k | 0 <= k < dirs.Length && k != level :: dirs[k] == old(dirs[k])
    {
      ghost var path := buf[..len];
      buf[len] := '\0';
      CStringPrefix(buf[..], len);
      assert buf[..len] == path;
      RoomWhenNull(level);
      assert len == 0 ==> path == "";
      var denied := Opendir(level, CString(buf[..]));
      if dirs[level] == NULL {
        return false;
      }
      ok := true;
      SkipEntries(level, got, names, broken);
    }

    method SkipEntries(level: nat, got: nat, ghost names: seq<string>, ghost broken: bool)
      requires Valid() && got <= |names| && Reading(level, names, broken, 0)
      modifies this`streams
      ensures Valid() && Reading(level, names, broken, got)
      ensures KeptOrClosed(old(dirs[..]), old(streams), level)
    {
      var skip := got;
      while skip != 0
        invariant Valid() && 0 <= skip <= got && Reading(level, names, broken, got - skip)
        invariant KeptOrClosed(old(dirs[..]), old(streams), level)
        decreases skip
      {
        skip := skip - 1;
        var entry, failed := Readdir(level, names, broken, got - skip - 1);
      }
    }

    lemma NoneOpen()
      requires Valid() && forall k | 0 <= k < dirs.Length :: dirs[k] == NULL
      ensures streams == map[]
    {
      assert forall id :: id !in streams;
    }

    /** The walk as a whole. A start of "/" sets `len` to 0. */
    method Ftw(start: string) returns (ret: int)
      requires Valid() && streams == map[] && calls == []
      requires |start| <= PATH_MAX && NulFree(start)
      modifies this`calls, this`streams, this`nextId, dirs, buf
      ensures streams == map[]
      ensures Outcome(calls, ret) == if start == "/" && fs(start).Dir? then RootWalk(fs, cb, dirs.Length)
                                     else Cut(cb, [], Walk(fs, start))
    {
      CopyStart(start);
      var ok, flag := OpenEntry(0, start);
      if flag != FTW_D || start != "/" {
        WalkIsCut(fs, cb, start);
      }
      if !ok {
        NoneOpen();
        return -1;
      }
      ret := EnterStart(start, flag);
      NoneOpen();
    }

    method CopyStart(start: string)
      requires buf.Length == PATH_MAX + 1 && |start| <= PATH_MAX
      modifies buf
      ensures buf[..|start|] == start
    {
      var len := |start|;
      forall i | 0 <= i < len {
        buf[i] := start[i];
      }
      buf[len] := '\0';
    }

    /** The call for the start, and what is below it. */
    method EnterStart(start: string, flag: Flag) returns (ret: int)
      requires Valid() && |start| <= PATH_MAX && buf[..|start|] == start && NulFree(start)
      requires flag == FTW_D ==> fs(start).Dir? && Reading(0, fs(start).names, fs(start).broken, 0)
      modifies this`calls, this`streams, this`nextId, dirs, buf
      ensures Valid()
      ensures var r := Report(cb, old(calls), Call(start, flag));
              Outcome(calls, ret) ==
              if flag != FTW_D || r.ret != 0 then r
              else Rest(if start == "/" then "" else start, fs(start).names, fs(start).broken, 0, r.calls)
      ensures if flag == FTW_D then dirs[0] == NULL
              else dirs[..] == old(dirs[..]) && streams == old(streams)
      ensures KeptOrClosed(old(dirs[..]), old(streams), 0)
    {
      calls := calls + [Call(start, flag)];
      ret := cb(calls);
      if flag == FTW_D {
        if ret == 0 {
          var len := |start|;
          if len == 1 && buf[0] == '/' {
            len := 0;
          }
          assert buf[..len] == if start == "/" then "" else start;
          ret := FtwDir(0, len, fs(start).names, fs(start).broken);
        }
        if dirs[0] != NULL {
          Closedir(0);
        }
      }
    }
  }
}
