/** The work queue of unix/work.c (SPOOLDIR_TAYLOR) and the grade order of uuconf/grdcmp.c. */
module Work {
  import opened Wrappers
  import opened Escape
  import opened Command

  // ---------- grades ----------

  predicate IsUpper(c: char) { 'A' <= c <= 'Z' }

  predicate IsLower(c: char) { 'a' <= c <= 'z' }

  predicate IsGrade(c: char) { IsDigit(c) || IsUpper(c) || IsLower(c) }

  /** uuconf_grade_cmp. */
  function GradeCmp(b1: char, b2: char): int {
    if IsDigit(b1) then
      if IsDigit(b2) then b1 as int - b2 as int else -1
    else if IsUpper(b1) then
      if IsDigit(b2) then 1 else if IsUpper(b2) then b1 as int - b2 as int else -1
    else
      if !IsLower(b2) then 1 else b1 as int - b2 as int
  }

  /** On legal grades the comparison is the order of the characters, so sorting names sorts grades. */
  lemma GradeOrderIsCharOrder(b1: char, b2: char)
    requires IsGrade(b1) && IsGrade(b2)
    ensures GradeCmp(b1, b2) < 0 <==> b1 < b2
    ensures GradeCmp(b1, b2) == 0 <==> b1 == b2
  {
  }

  // ---------- names ----------

  /** strcmp (a, b) <= 0. */
  predicate Leq(a: CString, b: CString) {
    a == [] || (b != [] && (a[0] < b[0] || (a[0] == b[0] && Leq(a[1..], b[1..]))))
  }

  lemma {:induction false} LeqTotal(a: CString, b: CString)
    ensures Leq(a, b) || Leq(b, a)
  {
    if a != [] && b != [] && a[0] == b[0] { LeqTotal(a[1..], b[1..]); }
  }

  lemma {:induction false} LeqTransitive(a: CString, b: CString, c: CString)
    requires Leq(a, b) && Leq(b, c)
    ensures Leq(a, c)
  {
    if a != [] && a[0] == b[0] == c[0] { LeqTransitive(a[1..], b[1..], c[1..]); }
  }

  lemma {:induction false} LeqAntisymmetric(a: CString, b: CString)
    requires Leq(a, b) && Leq(b, a)
    ensures a == b
  {
    if a != [] {
      LeqAntisymmetric(a[1..], b[1..]);
      assert a == [a[0]] + a[1..] && b == [b[0]] + b[1..];
    }
  }

  /** A file name and its grade. */
  datatype FileName = FileName(zfile: CString, bgrade: char)

  /** fswork_file: C.gqqqq. */
  predicate IsWorkFile(z: CString) { |z| >= 3 && z[0] == 'C' && z[1] == '.' }

  /** A command file is C., its grade, and the rest of its name. */
  lemma WorkFileIs(z: CString)
    ensures IsWorkFile(z) <==> |z| > 2 && z == "C." + [z[2]] + z[3..]
  {
    if IsWorkFile(z) { assert z == [z[0], z[1]] + [z[2]] + z[3..]; }
  }

  predicate IsName(f: FileName) { IsWorkFile(f.zfile) && f.bgrade == f.zfile[2] }

  predicate Sorted(a: seq<FileName>) {
    forall i, j | 0 <= i <= j < |a| :: Leq(a[i].zfile, a[j].zfile)
  }

  predicate Distinct(a: seq<FileName>) {
    forall i, j | 0 <= i < j < |a| :: a[i].zfile != a[j].zfile
  }

  /** Names in order have their grades in order. */
  lemma NamesInOrder(f: FileName, g: FileName)
    requires IsName(f) && IsName(g) && Leq(f.zfile, g.zfile) && IsGrade(f.bgrade) && IsGrade(g.bgrade)
    ensures GradeCmp(f.bgrade, g.bgrade) <= 0
  {
    GradeOrderIsCharOrder(f.bgrade, g.bgrade);
    assert Leq(f.zfile[1..], g.zfile[1..]);
    assert Leq(f.zfile[1..][1..], g.zfile[1..][1..]);
  }

  // ---------- qsort and bsearch ----------

  function Insert(f: FileName, a: seq<FileName>): (r: seq<FileName>)
    ensures multiset(r) == multiset{f} + multiset(a)
  {
    if a == [] then [f]
    else if Leq(f.zfile, a[0].zfile) then [f] + a
    else
      assert a == [a[0]] + a[1..];
      [a[0]] + Insert(f, a[1..])
  }

  function Qsort(a: seq<FileName>): (r: seq<FileName>)
    ensures multiset(r) == multiset(a)
  {
    if a == [] then []
    else
      assert a == [a[0]] + a[1..];
      Insert(a[0], Qsort(a[1..]))
  }

  lemma InMultiset(a: seq<FileName>, f: FileName)
    ensures f in multiset(a) <==> exists i :: 0 <= i < |a| && a[i] == f
  {
  }

  lemma {:induction false} InsertSorts(f: FileName, a: seq<FileName>)
    requires Sorted(a)
    ensures Sorted(Insert(f, a))
  {
    LeqTotal(f.zfile, f.zfile);
    if a != [] {
      LeqTotal(f.zfile, a[0].zfile);
      if Leq(f.zfile, a[0].zfile) {
        forall i | 0 <= i < |a| ensures Leq(f.zfile, a[i].zfile) {
          LeqTransitive(f.zfile, a[0].zfile, a[i].zfile);
        }
      } else {
        InsertSorts(f, a[1..]);
        var r := Insert(f, a[1..]);
        forall i | 0 <= i < |r| ensures Leq(a[0].zfile, r[i].zfile) {
          InMultiset(r, r[i]);
          InMultiset(a[1..], r[i]);
          if r[i] != f {
            var k :| 0 <= k < |a[1..]| && a[1..][k] == r[i];
            assert a[k + 1] == r[i];
          }
        }
      }
    }
  }

  lemma {:induction false} QsortSorts(a: seq<FileName>)
    ensures Sorted(Qsort(a)) && |Qsort(a)| == |a|
  {
    assert |multiset(Qsort(a))| == |multiset(a)|;
    if a != [] {
      QsortSorts(a[1..]);
      InsertSorts(a[0], Qsort(a[1..]));
    }
  }

  lemma SameMembers(a: seq<FileName>, b: seq<FileName>)
    requires multiset(a) == multiset(b)
    ensures forall f :: f in a <==> f in b
  {
    forall f ensures f in a <==> f in b {
      assert f in a <==> f in multiset(a);
      assert f in b <==> f in multiset(b);
    }
  }

  /** bsearch needs the array sorted. */
  method Bsearch(key: CString, a: seq<FileName>) returns (found: bool)
    requires Sorted(a)
    ensures found <==> exists i :: 0 <= i < |a| && a[i].zfile == key
  {
    var lo: nat, hi: nat := 0, |a|;
    while lo < hi
      invariant lo <= hi <= |a|
      invariant forall i | 0 <= i < |a| && a[i].zfile == key :: lo <= i < hi
    {
      var mid := (lo + hi) / 2;
      var z := a[mid].zfile;
      if z == key {
        return true;
      }
      LeqTotal(z, key);
      forall i | 0 <= i < |a| && a[i].zfile == key
        ensures if Leq(z, key) then mid < i else i < mid
      {
        assert mid <= i ==> Leq(z, a[i].zfile);
        assert i <= mid ==> Leq(a[i].zfile, z);
        if Leq(z, key) && Leq(key, z) { LeqAntisymmetric(z, key); }
      }
      if Leq(z, key) { lo := mid + 1; } else { hi := mid; }
    }
    found := false;
  }

  // ---------- the queue ----------

  /** A line of a command file; out: handed out and not yet done (its qfile is set). */
  datatype Line = Line(zline: CString, out: bool)

  /** struct ssfile; pointers to it are its index in the order of opening. */
  datatype SFile = SFile(zfile: CString, bgrade: char, lines: seq<Line>, cdid: nat)

  /** What opendir finds. */
  datatype Dir = Missing | Unreadable | Listing(entries: seq<CString>)

  datatype Got = NoMore | Failure | Command(c: Scmd, file: nat, line: nat)

  /** Every name used comes before every name to come. */
  predicate Split(a: seq<FileName>, k: nat) {
    forall i, j | 0 <= i < k <= j < |a| :: Leq(a[i].zfile, a[j].zfile)
  }

  function Names(a: seq<FileName>): set<CString> {
    set f | f in a :: f.zfile
  }

  lemma DistinctHead(a: seq<FileName>)
    requires a != []
    ensures Names(a) == Names(a[1..]) + {a[0].zfile}
    ensures Distinct(a) <==> Distinct(a[1..]) && a[0].zfile !in Names(a[1..])
  {
    var t := a[1..];
    assert a == [a[0]] + t;
    if Distinct(a) {
      assert forall i | 0 <= i < |t| :: t[i] == a[i + 1];
    }
    if a[0].zfile !in Names(t) {
      forall i | 1 <= i < |a| ensures a[0].zfile != a[i].zfile {
        assert t[i - 1] == a[i];
        assert t[i - 1].zfile in Names(t);
      }
    }
  }

  lemma {:induction false} DistinctCount(a: seq<FileName>)
    ensures |Names(a)| <= |a|
    ensures |Names(a)| == |a| <==> Distinct(a)
  {
    if a != [] {
      DistinctHead(a);
      DistinctCount(a[1..]);
    }
  }

  lemma QsortKeepsNames(a: seq<FileName>)
    ensures Names(Qsort(a)) == Names(a) && (Distinct(a) ==> Distinct(Qsort(a)))
  {
    SameMembers(Qsort(a), a);
    assert Names(Qsort(a)) == Names(a);
    QsortSorts(a);
    DistinctCount(a);
    DistinctCount(Qsort(a));
  }

  lemma DistinctPart(a: seq<FileName>, lo: nat, hi: nat)
    requires lo <= hi <= |a| && Distinct(a)
    ensures Distinct(a[lo..hi]) && |Names(a[lo..hi])| == hi - lo
  {
    DistinctCount(a[lo..hi]);
  }

  /** A name of a that is not in the first part is in the other. */
  lemma InOtherPart(a: seq<FileName>, k: nat, z: CString)
    requires k <= |a| && z in Names(a) && z !in Names(a[..k])
    ensures exists j :: k <= j < |a| && a[j].zfile == z
  {
    var f :| f in a && f.zfile == z;
    var j :| 0 <= j < |a| && a[j] == f;
    assert forall i | 0 <= i < k :: a[..k][i] == a[i];
  }

  lemma SubsetOfSameSize(x: set<CString>, y: set<CString>)
    requires x <= y && |x| == |y|
    ensures x == y
  {
    assert y == x + (y - x);
  }

  /** Sorting the whole array, as every scan starts with, keeps the used names in front exactly if
      they all come before the unused ones. */
  lemma SortKeepsUsed(a: seq<FileName>, k: nat)
    requires Distinct(a) && k <= |a|
    ensures |Qsort(a)| == |a| && (Names(Qsort(a)[..k]) == Names(a[..k]) <==> Split(a, k))
  {
    var b := Qsort(a);
    QsortSorts(a);
    QsortKeepsNames(a);
    DistinctPart(a, 0, k);
    DistinctPart(b, 0, k);
    var x, y := Names(a[..k]), Names(b[..k]);
    if x == y {
      SameUsedIsSplit(a, b, k);
    } else if Split(a, k) {
      SplitIsSameUsed(a, b, k, x, y);
    }
  }

  lemma SplitIsSameUsed(a: seq<FileName>, b: seq<FileName>, k: nat, x: set<CString>, y: set<CString>)
    requires Sorted(b) && Split(a, k) && |a| == |b| && k <= |a| && Names(a) == Names(b)
    requires x == Names(a[..k]) && y == Names(b[..k]) && |x| == |y|
    ensures x == y
  {
    if x != y {
      if y <= x { SubsetOfSameSize(y, x); }
      if x <= y { SubsetOfSameSize(x, y); }
      var f :| f in x && f !in y;
      var g :| g in y && g !in x;
      var i := FrontIndex(a, k, f);
      var m := FrontIndex(b, k, g);
      var j := BackIndex(a, k, g);
      var n := BackIndex(b, k, f);
      NoSwap(a, b, k, i, j, m, n);
    }
  }

  lemma FrontIndex(a: seq<FileName>, k: nat, z: CString) returns (i: nat)
    requires k <= |a| && z in Names(a[..k])
    ensures i < k && a[i].zfile == z && z in Names(a)
  {
    var f :| f in a[..k] && f.zfile == z;
    i :| 0 <= i < k && a[..k][i] == f;
    assert a[i] in a;
  }

  lemma BackIndex(a: seq<FileName>, k: nat, z: CString) returns (j: nat)
    requires k <= |a| && z in Names(a) && z !in Names(a[..k])
    ensures k <= j < |a| && a[j].zfile == z
  {
    InOtherPart(a, k, z);
    j :| k <= j < |a| && a[j].zfile == z;
  }

  lemma SameUsedIsSplit(a: seq<FileName>, b: seq<FileName>, k: nat)
    requires Distinct(a) && Sorted(b) && |a| == |b| && k <= |a|
    requires Names(a) == Names(b) && Names(a[..k]) == Names(b[..k])
    ensures Split(a, k)
  {
    forall i, j | 0 <= i < k <= j < |a| ensures Leq(a[i].zfile, a[j].zfile) {
      assert a[..k][i] == a[i];
      assert a[i].zfile in Names(b[..k]);
      var f :| f in b[..k] && f.zfile == a[i].zfile;
      var m :| 0 <= m < k && b[m] == f;
      assert a[j].zfile in Names(a);
      NotInFront(a, k, j);
      InOtherPart(b, k, a[j].zfile);
      var n :| k <= n < |b| && b[n].zfile == a[j].zfile;
      assert Leq(b[m].zfile, b[n].zfile);
    }
  }

  lemma NotInFront(a: seq<FileName>, k: nat, j: nat)
    requires Distinct(a) && k <= j < |a|
    ensures a[j].zfile !in Names(a[..k])
  {
    assert forall i | 0 <= i < k :: a[..k][i] == a[i];
  }

  lemma NoSwap(a: seq<FileName>, b: seq<FileName>, k: nat, i: nat, j: nat, m: nat, n: nat)
    requires Sorted(b) && Split(a, k) && |a| == |b| && i < k <= j < |a| && m < k <= n < |b|
    requires a[i].zfile == b[n].zfile && a[j].zfile == b[m].zfile
    ensures a[i].zfile == a[j].zfile
  {
    assert Leq(a[i].zfile, a[j].zfile) && Leq(b[m].zfile, b[n].zfile);
    LeqAntisymmetric(a[i].zfile, a[j].zfile);
  }

  lemma NamesOfBoth(a: seq<FileName>, b: seq<FileName>)
    ensures Names(a + b) == Names(a) + Names(b)
    ensures Distinct(a) && Distinct(b) && Names(a) !! Names(b) ==> Distinct(a + b)
  {
    forall i, j | 0 <= i < |a| && 0 <= j < |b| && Names(a) !! Names(b)
      ensures a[i].zfile != b[j].zfile
    {
      assert a[i].zfile in Names(a) && b[j].zfile in Names(b);
    }
  }

  /** The sort of the new part, which ends fsysdep_get_work_init. */
  lemma TailSorted(a: seq<FileName>, k: nat)
    requires Distinct(a) && k <= |a|
    ensures var b := a[..k] + Qsort(a[k..]);
            |b| == |a| && b[..k] == a[..k] && Distinct(b) && Names(b) == Names(a) && Sorted(b[k..])
            && (forall f :: f in b <==> f in a)
  {
    var t := Qsort(a[k..]);
    var b := a[..k] + t;
    assert a == a[..k] + a[k..];
    QsortSorts(a[k..]);
    QsortKeepsNames(a[k..]);
    SameMembers(t, a[k..]);
    NamesOfBoth(a[..k], t);
    NamesOfBoth(a[..k], a[k..]);
    DistinctCount(a);
    DistinctCount(b);
    assert b[k..] == t;
  }

  /** What the scan of the directory is after. */
  predicate Wanted(z: CString, bgrade: char) { IsWorkFile(z) && GradeCmp(bgrade, z[2]) >= 0 }

  /** A file is wanted if it is a command file whose grade does not come after the one asked for. */
  lemma WantedIs(z: CString, bgrade: char)
    requires IsGrade(bgrade) && (|z| > 2 ==> IsGrade(z[2]))
    ensures Wanted(z, bgrade) <==> |z| > 2 && z == "C." + [z[2]] + z[3..] && z[2] <= bgrade
  {
    WorkFileIs(z);
    if IsWorkFile(z) { GradeOrderIsCharOrder(bgrade, z[2]); }
  }

  predicate AllDifferent(entries: seq<CString>) {
    forall i, j | 0 <= i < j < |entries| :: entries[i] != entries[j]
  }

  /** The entries of a directory that are wanted and not in the sorted array yet. */
  method Collect(sorted: seq<FileName>, entries: seq<CString>, bgrade: char, cmax: nat)
    returns (added: seq<FileName>)
    requires Sorted(sorted) && AllDifferent(entries)
    ensures Distinct(added) && Names(added) !! Names(sorted)
    ensures (forall f | f in added :: IsName(f)) && OnlyWanted(Names(added), entries, bgrade)
    ensures cmax == 0 ==> AllWanted(Names(sorted) + Names(added), entries, bgrade)
    ensures cmax != 0 ==> |added| <= cmax + 1
  {
    added := [];
    var i: nat := 0;
    while i < |entries|
      invariant i <= |entries| && Distinct(added) && Names(added) !! Names(sorted)
      invariant forall f | f in added :: IsName(f) && f.zfile in entries[..i] && Wanted(f.zfile, bgrade)
      invariant cmax == 0 ==> forall z | z in entries[..i] && Wanted(z, bgrade) ::
                  z in Names(sorted) + Names(added)
      invariant cmax != 0 ==> |added| <= cmax
    {
      var z := entries[i];
      var known := Bsearch(z, sorted);
      assert entries[..i + 1] == entries[..i] + [z];
      i := i + 1;
      if Wanted(z, bgrade) && !known {
        NewName(sorted, added, entries, i - 1);
        added := added + [FileName(z, z[2])];
        if cmax != 0 && |added| > cmax {
          break;
        }
      } else if known {
        KnownName(sorted, z);
      }
    }
  }

  lemma KnownName(a: seq<FileName>, z: CString)
    ensures z in Names(a) <==> exists i :: 0 <= i < |a| && a[i].zfile == z
  {
    if z in Names(a) {
      var f :| f in a && f.zfile == z;
    }
  }

  lemma NewName(sorted: seq<FileName>, added: seq<FileName>, entries: seq<CString>, i: nat)
    requires i < |entries| && |entries[i]| >= 3 && AllDifferent(entries)
    requires Distinct(added) && Names(added) !! Names(sorted)
    requires forall f | f in added :: f.zfile in entries[..i]
    requires !exists k :: 0 <= k < |sorted| && sorted[k].zfile == entries[i]
    ensures var more := added + [FileName(entries[i], entries[i][2])];
            Distinct(more) && Names(more) !! Names(sorted) && Names(more) == Names(added) + {entries[i]}
  {
    var f := FileName(entries[i], entries[i][2]);
    KnownName(sorted, entries[i]);
    NamesOfBoth(added, [f]);
    assert Names([f]) == {entries[i]};
    forall k | 0 <= k < i ensures entries[..i][k] != entries[i] {}
  }

  // ---------- what has been handed out ----------

  predicate Before(p: (nat, nat), q: (nat, nat)) { p.0 < q.0 || (p.0 == q.0 && p.1 < q.1) }

  /** In the order of files and lines, so nothing twice. */
  predicate InOrder(log: seq<(nat, nat)>) {
    forall i, j {:trigger Before(log[i], log[j])} | 0 <= i < j < |log| :: Before(log[i], log[j])
  }

  /** A line in the log or among the stuck ones has been taken from its file. */
  predicate Taken(files: seq<SFile>, p: (nat, nat)) {
    p.0 < |files| && p.1 < files[p.0].cdid
  }

  /** The mark of a line says whether it is out, and a line that was taken was handed out unless it
      could not be parsed or its temporary file could not be named. */
  predicate LineOk(files: seq<SFile>, log: seq<(nat, nat)>, done: set<(nat, nat)>, stuck: set<(nat, nat)>,
                   f: nat, l: nat)
    requires f < |files| && l < |files[f].lines|
  {
    var p := (f, l);
    && (files[f].lines[l].out <==> (p in log && p !in done) || p in stuck)
    && (l < files[f].cdid ==> p in log || p in stuck || Parse(files[f].lines[l].zline).None?)
    && (p in log || p in stuck ==> Parse(files[f].lines[l].zline).Some?)
  }

  predicate Accounted(files: seq<SFile>, log: seq<(nat, nat)>, done: set<(nat, nat)>, stuck: set<(nat, nat)>) {
    && (forall p {:trigger Taken(files, p)} | p in log :: Taken(files, p) && p !in stuck)
    && (forall p {:trigger Taken(files, p)} | p in stuck :: Taken(files, p))
    && (forall p | p in done :: p in log)
    && (forall f, l {:trigger LineOk(files, log, done, stuck, f, l)} |
          0 <= f < |files| && 0 <= l < |files[f].lines| :: LineOk(files, log, done, stuck, f, l))
  }

  /** All lines of the file have been taken, and all its commands are done. */
  predicate Over(files: seq<SFile>, done: set<(nat, nat)>, f: nat) {
    && f < |files| && files[f].cdid == |files[f].lines|
    && forall m | 0 <= m < |files[f].lines| :: (f, m) in done || Parse(files[f].lines[m].zline).None?
  }

  predicate AllOver(files: seq<SFile>, done: set<(nat, nat)>, removed: set<nat>) {
    forall f | f in removed :: Over(files, done, f)
  }

  predicate FilesOk(files: seq<SFile>) {
    forall f | 0 <= f < |files| :: 0 < |files[f].lines| && files[f].cdid <= |files[f].lines|
  }

  /** Only the current file has lines left. */
  predicate AllTaken(files: seq<SFile>, current: Option<nat>) {
    && (current.Some? ==> current.value == |files| - 1 && 0 < |files|)
    && forall f | 0 <= f < |files| && current != Some(f) :: files[f].cdid == |files[f].lines|
  }

  predicate NamesOk(names: seq<FileName>, ifile: nat, used: set<CString>) {
    && ifile <= |names| && Distinct(names) && used == Names(names[..ifile])
    && (forall f | f in names :: IsName(f))
    && Sorted(names[ifile..])
  }

  /** A file that was read was in the queue, under its grade. */
  predicate Listed(f: SFile, used: set<CString>) {
    f.zfile in used && IsName(FileName(f.zfile, f.bgrade))
  }

  predicate Served(files: seq<SFile>, current: Option<nat>, log: seq<(nat, nat)>,
                   done: set<(nat, nat)>, stuck: set<(nat, nat)>, used: set<CString>)
  {
    && FilesOk(files) && AllTaken(files, current)
    && Accounted(files, log, done, stuck) && InOrder(log)
    && (forall f | f in files :: Listed(f, used))
  }

  /** The files opened since the scan began are in order, and before those to come. */
  predicate ScanInOrder(files: seq<SFile>, scan: nat, names: seq<FileName>, ifile: nat) {
    && scan <= |files| && ifile <= |names|
    && (forall f, g {:trigger Leq(files[f].zfile, files[g].zfile)} | scan <= f <= g < |files| ::
          Leq(files[f].zfile, files[g].zfile))
    && (forall f, i {:trigger Leq(files[f].zfile, names[i].zfile)} |
          scan <= f < |files| && ifile <= i < |names| :: Leq(files[f].zfile, names[i].zfile))
  }

  /** The next name leaves the queue, and its file is read if it can be opened. */
  lemma NameTaken(names: seq<FileName>, ifile: nat, used: set<CString>)
    requires NamesOk(names, ifile, used) && ifile < |names|
    ensures NamesOk(names, ifile + 1, used + {names[ifile].zfile})
    ensures names[ifile].zfile !in used && IsName(names[ifile])
  {
    var a, b := names[..ifile], names[..ifile + 1];
    assert b == a + [names[ifile]];
    NamesOfBoth(a, [names[ifile]]);
    assert Names([names[ifile]]) == {names[ifile].zfile};
    NotInFront(names, ifile, ifile);
    assert names[ifile + 1..] == names[ifile..][1..];
  }

  lemma FileOpened(files: seq<SFile>, scan: nat, names: seq<FileName>, ifile: nat, used: set<CString>, file: SFile)
    requires NamesOk(names, ifile, used) && ScanInOrder(files, scan, names, ifile) && ifile < |names|
    requires file.zfile == names[ifile].zfile
    ensures ScanInOrder(files + [file], scan, names, ifile + 1)
  {
    var fs := files + [file];
    LeqTotal(file.zfile, file.zfile);
    forall f, g | scan <= f <= g < |fs| ensures Leq(fs[f].zfile, fs[g].zfile) {
      if g < |files| {
        assert Leq(files[f].zfile, files[g].zfile);
      } else if f < |files| {
        assert Leq(files[f].zfile, names[ifile].zfile);
      }
    }
    forall f, i | scan <= f < |fs| && ifile < i < |names| ensures Leq(fs[f].zfile, names[i].zfile) {
      if f < |files| {
        assert Leq(files[f].zfile, names[i].zfile);
      } else {
        assert Leq(names[ifile..][0].zfile, names[ifile..][i - ifile].zfile);
      }
    }
  }

  lemma FileServed(files: seq<SFile>, log: seq<(nat, nat)>, done: set<(nat, nat)>, stuck: set<(nat, nat)>,
                   used: set<CString>, file: SFile)
    requires Served(files, None, log, done, stuck, used)
    requires IsName(FileName(file.zfile, file.bgrade))
    requires file.lines != [] && file.cdid == 0 && forall l | 0 <= l < |file.lines| :: !file.lines[l].out
    ensures Served(files + [file], Some(|files|), log, done, stuck, used + {file.zfile})
  {
    var fs := files + [file];
    assert FilesOk(fs) && AllTaken(fs, Some(|files|));
    assert forall f | f in fs :: Listed(f, used + {file.zfile});
    forall p | p in log || p in stuck ensures Taken(fs, p) && !(p in log && p in stuck) {
      assert Taken(files, p);
    }
    forall f, l | 0 <= f < |fs| && 0 <= l < |fs[f].lines| ensures LineOk(fs, log, done, stuck, f, l) {
      if f < |files| {
        assert LineOk(files, log, done, stuck, f, l);
      } else {
        assert (f, l) in log || (f, l) in stuck ==> Taken(files, (f, l));
      }
    }
  }

  /** Within a scan commands are handed out in the order of their grades. */
  lemma GradesInOrder(files: seq<SFile>, current: Option<nat>, log: seq<(nat, nat)>, done: set<(nat, nat)>,
                      stuck: set<(nat, nat)>, used: set<CString>, names: seq<FileName>, ifile: nat,
                      scan: nat, i: nat, j: nat)
    requires Served(files, current, log, done, stuck, used) && ScanInOrder(files, scan, names, ifile)
    requires i <= j < |log| && scan <= log[i].0
    ensures log[i].0 <= log[j].0 < |files|
    ensures var b, c := files[log[i].0].bgrade, files[log[j].0].bgrade;
            IsGrade(b) && IsGrade(c) ==> GradeCmp(b, c) <= 0
  {
    assert log[i] in log && log[j] in log && Taken(files, log[i]) && Taken(files, log[j]);
    assert i < j ==> Before(log[i], log[j]);
    var f, g := files[log[i].0], files[log[j].0];
    assert f in files && g in files && Leq(f.zfile, g.zfile);
    if IsGrade(f.bgrade) && IsGrade(g.bgrade) {
      NamesInOrder(FileName(f.zfile, f.bgrade), FileName(g.zfile, g.bgrade));
    }
  }

  /** After a scan the names to come are sorted, and the new names are the wanted ones; all of these
      are there if their number is not limited. */
  ghost predicate Extends(names: seq<FileName>, more: seq<FileName>, ifile: nat, entries: seq<CString>,
                          bgrade: char, cmax: nat)
  {
    && ifile <= |more| && Distinct(more) && Sorted(more[ifile..]) && Names(names) <= Names(more)
    && OnlyWanted(Names(more) - Names(names), entries, bgrade)
    && (cmax == 0 ==> AllWanted(Names(more), entries, bgrade))
    && (cmax != 0 ==> |more| <= |names| + cmax + 1)
  }

  predicate OnlyWanted(zs: set<CString>, entries: seq<CString>, bgrade: char) {
    forall z | z in zs :: z in entries && Wanted(z, bgrade)
  }

  predicate AllWanted(zs: set<CString>, entries: seq<CString>, bgrade: char) {
    forall z | z in entries && Wanted(z, bgrade) :: z in zs
  }

  /** All the names sorted, and behind the first ifile of them the others with the added ones. */
  function Requeue(names: seq<FileName>, ifile: nat, added: seq<FileName>): seq<FileName>
    requires ifile <= |Qsort(names)|
  {
    var all := Qsort(names) + added;
    all[..ifile] + Qsort(all[ifile..])
  }

  lemma RequeuedNames(names: seq<FileName>, ifile: nat, added: seq<FileName>)
    requires Distinct(names) && ifile <= |names| && Distinct(added) && Names(added) !! Names(Qsort(names))
    ensures ifile <= |Qsort(names)| == |names|
    ensures var r := Requeue(names, ifile, added);
            && |r| == |names| + |added| && Distinct(r) && Sorted(r[ifile..])
            && Names(r) == Names(names) + Names(added)
            && r[..ifile] == Qsort(names)[..ifile]
            && forall f | f in r :: f in names || f in added
  {
    var sorted := Qsort(names);
    QsortSorts(names);
    QsortKeepsNames(names);
    SameMembers(sorted, names);
    NamesOfBoth(sorted, added);
    FrontOf(sorted, added, ifile);
    TailSorted(sorted + added, ifile);
  }

  lemma FrontOf(a: seq<FileName>, b: seq<FileName>, k: nat)
    requires k <= |a|
    ensures (a + b)[..k] == a[..k] && forall f | f in a + b :: f in a || f in b
  {
  }

  lemma Requeued(names: seq<FileName>, ifile: nat, used: set<CString>, added: seq<FileName>)
    requires NamesOk(names, ifile, used) && Distinct(added) && Names(added) !! Names(Qsort(names))
    requires forall f | f in added :: IsName(f)
    ensures ifile <= |Qsort(names)|
    ensures var r := Requeue(names, ifile, added);
            && |r| == |names| + |added| && Distinct(r) && Sorted(r[ifile..])
            && Names(r) == Names(names) + Names(added)
            && (NamesOk(r, ifile, used) <==> Split(names, ifile))
  {
    RequeuedNames(names, ifile, added);
    SortKeepsUsed(names, ifile);
  }

  /** What a scan of the directory makes of the queue. */
  method Rescan(names: seq<FileName>, ifile: nat, ghost used: set<CString>, entries: seq<CString>,
                bgrade: char, cmax: nat) returns (more: seq<FileName>)
    requires NamesOk(names, ifile, used) && AllDifferent(entries)
    ensures Extends(names, more, ifile, entries, bgrade, cmax)
    ensures NamesOk(more, ifile, used) <==> Split(names, ifile)
    ensures used !! Names(more[ifile..]) <==> Split(names, ifile)
  {
    UsedCount(names, ifile, used);
    var sorted := Qsort(names);
    QsortSorts(names);
    QsortKeepsNames(names);
    var added := Collect(sorted, entries, bgrade, cmax);
    Requeued(names, ifile, used, added);
    more := Requeue(names, ifile, added);
    UsedInFront(more, ifile, used);
    RequeueIsOk(names, ifile, used, added);
  }

  lemma UsedCount(names: seq<FileName>, ifile: nat, used: set<CString>)
    requires NamesOk(names, ifile, used)
    ensures |used| == ifile && used <= Names(names)
  {
    FrontNames(names, ifile);
  }

  lemma FrontNames(names: seq<FileName>, k: nat)
    requires Distinct(names) && k <= |names|
    ensures |Names(names[..k])| == k && Names(names[..k]) <= Names(names)
  {
    DistinctPart(names, 0, k);
    assert names[..k] == names[0..k];
    forall z | z in Names(names[..k]) ensures z in Names(names) {
      var i := FrontIndex(names, k, z);
    }
  }

  /** Of as many used names as there are places in front, all are there or one comes again. */
  lemma UsedInFront(more: seq<FileName>, ifile: nat, used: set<CString>)
    requires Distinct(more) && ifile <= |more| && used <= Names(more) && |used| == ifile
    ensures used == Names(more[..ifile]) <==> used !! Names(more[ifile..])
  {
    var front, back := more[..ifile], more[ifile..];
    assert more == front + back;
    NamesOfBoth(front, back);
    DistinctPart(more, 0, ifile);
    NoneInBoth(more, ifile);
    if used !! Names(back) {
      assert used <= Names(front);
      SubsetOfSameSize(used, Names(front));
    }
  }

  lemma NoneInBoth(more: seq<FileName>, ifile: nat)
    requires Distinct(more) && ifile <= |more|
    ensures Names(more[..ifile]) !! Names(more[ifile..])
  {
    forall z | z in Names(more[..ifile]) ensures z !in Names(more[ifile..]) {
      var i := FrontIndex(more, ifile, z);
      forall j | 0 <= j < |more| - ifile ensures more[ifile..][j].zfile != z {
        assert more[ifile..][j] == more[ifile + j];
      }
    }
  }

  lemma RequeueIsOk(names: seq<FileName>, ifile: nat, used: set<CString>, added: seq<FileName>)
    requires NamesOk(names, ifile, used) && Distinct(added) && Names(added) !! Names(Qsort(names))
    requires forall f | f in added :: IsName(f)
    ensures ifile <= |Qsort(names)|
    ensures used == Names(Requeue(names, ifile, added)[..ifile]) <==> Split(names, ifile)
  {
    RequeuedNames(names, ifile, added);
    SortKeepsUsed(names, ifile);
  }

  // ---------- what the files contain ----------

  /** The file has the lines found under its name, or P if there are none. */
  predicate ReadFrom(file: SFile, fs: CString -> Option<seq<CString>>) {
    && fs(file.zfile).Some?
    && var e := fs(file.zfile).value;
       if e == [] then |file.lines| == 1 && file.lines[0].zline == "P"
       else |file.lines| == |e| && forall l | 0 <= l < |e| :: file.lines[l].zline == e[l]
  }

  predicate SameText(a: SFile, b: SFile) {
    && a.zfile == b.zfile && a.cdid <= b.cdid && |a.lines| == |b.lines|
    && forall l {:trigger b.lines[l]} | 0 <= l < |b.lines| :: a.lines[l].zline == b.lines[l].zline
  }

  /** The names whose files can be opened. */
  function Opens(names: seq<FileName>, fs: CString -> Option<seq<CString>>): seq<CString> {
    if names == [] then []
    else (if fs(names[0].zfile).Some? then [names[0].zfile] else []) + Opens(names[1..], fs)
  }

  lemma {:induction false} OpensTogether(a: seq<FileName>, b: seq<FileName>, fs: CString -> Option<seq<CString>>)
    ensures Opens(a + b, fs) == Opens(a, fs) + Opens(b, fs)
  {
    if a == [] {
      assert a + b == b;
    } else {
      assert (a + b)[1..] == a[1..] + b && (a + b)[0] == a[0];
      OpensTogether(a[1..], b, fs);
    }
  }

  function FileNames(files: seq<SFile>): (r: seq<CString>)
    ensures |r| == |files| && forall f | 0 <= f < |files| :: r[f] == files[f].zfile
  {
    seq(|files|, f requires 0 <= f < |files| => files[f].zfile)
  }

  predicate IsLater(was: seq<SFile>, now: seq<SFile>, f: nat, fs: CString -> Option<seq<CString>>)
    requires f < |now|
  {
    if f < |was| then SameText(was[f], now[f]) else ReadFrom(now[f], fs)
  }

  /** The names have been used up: behind the files there were, whose texts stay, come all those of them
      that can be opened, in order. */
  ghost predicate Advances(was: seq<SFile>, now: seq<SFile>, names: seq<FileName>,
                           fs: CString -> Option<seq<CString>>)
  {
    && FileNames(now) == FileNames(was) + Opens(names, fs) && |was| <= |now|
    && forall f {:trigger IsLater(was, now, f, fs)} | 0 <= f < |now| :: IsLater(was, now, f, fs)
  }

  predicate CannotSpool(files: seq<SFile>, f: nat, l: nat, spool: CString -> bool) {
    && f < |files| && l < |files[f].lines|
    && var c := Parse(files[f].lines[l].zline);
       c.Some? && Sends(c.value) && !spool(Text(c.value.temp))
  }

  lemma AdvancesNot(files: seq<SFile>, fs: CString -> Option<seq<CString>>)
    ensures Advances(files, files, [], fs)
  {
  }

  lemma AdvancesOn(a: seq<SFile>, b: seq<SFile>, c: seq<SFile>, ns: seq<FileName>, ms: seq<FileName>,
                   fs: CString -> Option<seq<CString>>)
    requires Advances(a, b, ns, fs) && Advances(b, c, ms, fs)
    ensures Advances(a, c, ns + ms, fs)
  {
    OpensTogether(ns, ms, fs);
    forall f | 0 <= f < |c| ensures IsLater(a, c, f, fs) {
      assert IsLater(b, c, f, fs);
      if f < |b| { LaterStill(a, b, c, f, fs); }
    }
  }

  lemma LaterStill(a: seq<SFile>, b: seq<SFile>, c: seq<SFile>, f: nat, fs: CString -> Option<seq<CString>>)
    requires |a| <= |b| && f < |b| && f < |c| && SameText(b[f], c[f]) && IsLater(a, b, f, fs)
    ensures IsLater(a, c, f, fs)
  {
  }

  lemma NoneOpened(files: seq<SFile>, name: FileName, fs: CString -> Option<seq<CString>>)
    requires fs(name.zfile).None?
    ensures Advances(files, files, [name], fs)
  {
    assert Opens([name], fs) == [];
  }

  lemma OneMoreName(names: seq<FileName>, lo: nat, i: nat)
    requires lo <= i < |names|
    ensures names[lo..i + 1] == names[lo..i] + [names[i]]
  {
  }

  lemma NamesJoin(names: seq<FileName>, lo: nat, mid: nat, hi: nat)
    requires lo <= mid <= hi <= |names|
    ensures names[lo..hi] == names[lo..mid] + names[mid..hi]
  {
  }

  lemma AdvancesByOne(files: seq<SFile>, file: SFile, name: FileName, fs: CString -> Option<seq<CString>>)
    requires ReadFrom(file, fs) && file.zfile == name.zfile
    ensures Advances(files, files + [file], [name], fs)
  {
    var now := files + [file];
    assert Opens([name], fs) == [name.zfile];
    assert FileNames(now) == FileNames(files) + [name.zfile];
    forall f | 0 <= f < |now| ensures IsLater(files, now, f, fs) {}
  }

  /** How far a file had been read; one that is new, not at all. */
  function Position(was: seq<SFile>, f: nat): nat { if f < |was| then was[f].cdid else 0 }

  predicate Unparsable(now: seq<SFile>, f: nat, l: nat) {
    f < |now| && l < |now[f].lines| && Parse(now[f].lines[l].zline).None?
  }

  /** All lines taken meanwhile but these cannot be parsed. */
  ghost predicate Skipped(was: seq<SFile>, now: seq<SFile>, except: set<(nat, nat)>) {
    forall f, l {:trigger Unparsable(now, f, l)} |
      0 <= f < |now| && Position(was, f) <= l < now[f].cdid && (f, l) !in except :: Unparsable(now, f, l)
  }

  lemma SkippedOn(a: seq<SFile>, b: seq<SFile>, c: seq<SFile>, ms: seq<FileName>, except: set<(nat, nat)>,
                  fs: CString -> Option<seq<CString>>)
    requires |a| <= |b| && Skipped(a, b, {}) && Skipped(b, c, except) && Advances(b, c, ms, fs)
    ensures Skipped(a, c, except)
  {
    forall f, l | 0 <= f < |c| && Position(a, f) <= l < c[f].cdid && (f, l) !in except
      ensures Unparsable(c, f, l)
    {
      if l < Position(b, f) {
        assert Unparsable(b, f, l) && IsLater(b, c, f, fs);
      }
    }
  }

  lemma MovedAdvances(files: seq<SFile>, f: nat, out: bool, fs: CString -> Option<seq<CString>>)
    requires f < |files| && files[f].cdid < |files[f].lines|
    ensures Advances(files, Moved(files, f, out), [], fs)
    ensures Skipped(files, Moved(files, f, out), {(f, files[f].cdid)})
    ensures Parse(files[f].lines[files[f].cdid].zline).None? ==> Skipped(files, Moved(files, f, out), {})
  {
    var now := Moved(files, f, out);
    assert FileNames(now) == FileNames(files);
    forall g | 0 <= g < |now| ensures IsLater(files, now, g, fs) {}
    if Parse(files[f].lines[files[f].cdid].zline).None? {
      forall g, l | 0 <= g < |now| && Position(files, g) <= l < now[g].cdid ensures Unparsable(now, g, l) {}
    }
  }

  lemma MovedCannot(files: seq<SFile>, f: nat, out: bool, spool: CString -> bool)
    requires f < |files| && files[f].cdid < |files[f].lines|
    ensures CannotSpool(Moved(files, f, out), f, files[f].cdid, spool)
            <==> CannotSpool(files, f, files[f].cdid, spool)
  {
  }

  class WorkQueue {
    /** asSwork_files, iSwork_file, and the files read so far; qSwork_file is current. */
    var names: seq<FileName>
    var ifile: nat
    var files: seq<SFile>
    var current: Option<nat>
    /** Files removed after all their commands were done. */
    ghost var removed: set<nat>
    ghost var log: seq<(nat, nat)>
    ghost var done: set<(nat, nat)>
    ghost var stuck: set<(nat, nat)>
    /** The names taken from the queue, and where the files of this scan begin. */
    ghost var used: set<CString>
    ghost var scan: nat

    constructor ()
      ensures Valid() && names == [] && ifile == 0 && files == [] && log == [] && current == None
    {
      names, ifile, files, current := [], 0, [], None;
      removed, log, done, stuck, used, scan := {}, [], {}, {}, {}, 0;
    }

    ghost predicate Valid()
      reads this
    {
      && NamesOk(names, ifile, used) && Served(files, current, log, done, stuck, used)
      && ScanInOrder(files, scan, names, ifile) && AllOver(files, done, removed)
    }

    /** fsysdep_get_work_init. It sorts all the names, so calling it in the middle of a scan is right
        exactly if all the names used come before those to come; otherwise a used one comes again. */
    method GetWorkInit(dir: Dir, bgrade: char, cmax: nat) returns (ok: bool)
      requires Valid()
      requires dir.Listing? ==> AllDifferent(dir.entries)
      modifies this`names, this`scan
      ensures Valid() <==> !dir.Listing? || Split(old(names), ifile)
      ensures ok <==> !dir.Unreadable?
      ensures if dir.Listing? then Extends(old(names), names, ifile, dir.entries, bgrade, cmax)
              else names == old(names)
      ensures dir.Listing? ==> (used !! Names(names[ifile..]) <==> Split(old(names), ifile))
      ensures scan == |files|
    {
      scan := |files|;
      if !dir.Listing? {
        return dir.Missing?;
      }
      names := Rescan(names, ifile, used, dir.entries, bgrade, cmax);
      ok := true;
    }

    /** The next command file that can be opened; an empty one is a poll file. */
    method OpenNext(fs: CString -> Option<seq<CString>>) returns (more: bool)
      requires Valid() && current == None
      modifies this`ifile, this`files, this`current, this`used
      ensures Valid() && (more <==> current.Some?) && (!more ==> ifile == |names| && files == old(files))
      ensures old(ifile) <= ifile <= |names| && (more ==> old(ifile) < ifile)
      ensures more ==> |files| == |old(files)| + 1 && files[|old(files)|].cdid == 0
                       && files[|old(files)|].zfile == names[ifile - 1].zfile
      ensures Advances(old(files), files, names[old(ifile)..ifile], fs) && Skipped(old(files), files, {})
    {
      more := false;
      assert names[ifile..ifile] == [];
      AdvancesNot(files, fs);
      while ifile < |names| && !more
        invariant Valid() && (more <==> current.Some?)
        invariant !more ==> files == old(files)
        invariant old(ifile) <= ifile <= |names| && (more ==> old(ifile) < ifile)
        invariant more ==> |files| == |old(files)| + 1 && files[|old(files)|].cdid == 0
                           && files[|old(files)|].zfile == names[ifile - 1].zfile
        invariant Advances(old(files), files, names[old(ifile)..ifile], fs) && Skipped(old(files), files, {})
        decreases |names| - ifile, !more
      {
        ghost var i, before := ifile, files;
        more := OpenFile(fs);
        OneMoreName(names, old(ifile), i);
        AdvancesOn(old(files), before, files, names[old(ifile)..i], [names[i]], fs);
      }
    }

    /** The file of the next name, if it can be opened. */
    method OpenFile(fs: CString -> Option<seq<CString>>) returns (ok: bool)
      requires Valid() && current == None && ifile < |names|
      modifies this`ifile, this`files, this`current, this`used
      ensures Valid() && ifile == old(ifile) + 1 <= |names| && (ok <==> current.Some?)
      ensures Advances(old(files), files, [names[old(ifile)]], fs) && Skipped(old(files), files, {})
      ensures !ok ==> files == old(files)
      ensures ok ==> |files| == |old(files)| + 1 && files[|old(files)|].cdid == 0
                     && files[|old(files)|].zfile == names[old(ifile)].zfile
    {
      var name := names[ifile];
      NameTaken(names, ifile, used);
      var e := fs(name.zfile);
      ok := e.Some?;
      if ok {
        var file := SFile(name.zfile, name.bgrade, NotTaken(if e.value == [] then ["P"] else e.value), 0);
        FileOpened(files, scan, names, ifile, used, file);
        FileServed(files, log, done, stuck, used, file);
        OverBefore(files, done, removed, file);
        AdvancesByOne(files, file, name, fs);
        files, current := files + [file], Some(|files|);
      } else {
        NoneOpened(files, name, fs);
      }
      used := used + {name.zfile};
      ifile := ifile + 1;
    }

    /** The next line of the current file, which has one left, is taken. */
    method TakeLine(spool: CString -> bool) returns (r: Got, bad: bool)
      requires Valid() && current.Some? && files[current.value].cdid < |files[current.value].lines|
      modifies this`files, this`log, this`stuck
      ensures Valid() && |files| == |old(files)|
      ensures LinesLeft(files, current) == LinesLeft(old(files), current) - 1
      ensures var f := current.value; var l := old(files)[f].cdid; var c := Parse(old(files)[f].lines[l].zline);
              && (bad <==> c.None?)
              && (c.Some? ==> r == if Sends(c.value) && !spool(Text(c.value.temp)) then Failure
                                   else Command(c.value, f, l))
      ensures r.Command? && !bad ==> r.file < |files| && r.line < |files[r.file].lines|
                                     && Parse(files[r.file].lines[r.line].zline) == Some(r.c)
      ensures bad ==> r == NoMore
      ensures files == Moved(old(files), current.value, !bad)
      ensures stuck == if r.Failure? then old(stuck) + {(current.value, old(files)[current.value].cdid)}
                       else old(stuck)
      ensures r.Failure? ==> (current.value, old(files)[current.value].cdid) !in old(stuck)
      ensures log == if r.Command? && !bad then old(log) + [(r.file, r.line)] else old(log)
    {
      var f := current.value;
      var l := files[f].cdid;
      var p := Parse(files[f].lines[l].zline);
      bad, r := p.None?, NoMore;
      OverWithout(files, f, !bad, done, removed);
      if bad {
        BadLine(files, current, log, done, stuck, used);
        files := Moved(files, f, false);
        return;
      }
      var c := p.value;
      if Sends(c) && !spool(Text(c.temp)) {
        StuckLine(files, current, log, done, stuck, used);
        NotTakenYet(files, log, stuck, (f, l));
        r, stuck := Failure, stuck + {(f, l)};
      } else {
        GoodLine(files, current, log, done, stuck, used);
        r, log := Command(c, f, l), log + [(f, l)];
      }
      files := Moved(files, f, true);
    }

    /** What was taken though it can be parsed: the command, or what there is no temporary name for. */
    ghost function Handed(r: Got, before: set<(nat, nat)>): set<(nat, nat)>
      reads this
    {
      if r.Command? then {(r.file, r.line)} else stuck - before
    }

    /** A failure is that of a line that sends, and whose temporary file cannot be named. */
    ghost predicate Unnamed(r: Got, before: set<(nat, nat)>, spool: CString -> bool)
      reads this
    {
      if !r.Failure? then stuck == before
      else exists f, l {:trigger CannotSpool(files, f, l, spool)} ::
             CannotSpool(files, f, l, spool) && stuck == before + {(f, l)}
    }

    /** What a call of fsysdep_get_work has brought: a parsed line that joins the log, or nothing; H only
        when all files are used up. */
    ghost predicate Outcome(r: Got, before: seq<(nat, nat)>)
      reads this
    {
      && (r.Command? ==> log == before + [(r.file, r.line)] && r.file < |files|
                         && r.line < |files[r.file].lines|
                         && Parse(files[r.file].lines[r.line].zline) == Some(r.c))
      && (!r.Command? ==> log == before)
      && (r.NoMore? ==> ifile == |names| && current == None)
    }

    /** fsysdep_get_work: the next line that can be parsed, of the current file or of the next ones. */
    method GetWork(fs: CString -> Option<seq<CString>>, spool: CString -> bool) returns (r: Got)
      requires Valid()
      modifies this`ifile, this`files, this`current, this`used, this`log, this`stuck
      ensures Valid() && Outcome(r, old(log)) && Unnamed(r, old(stuck), spool)
      ensures old(ifile) <= ifile <= |names|
      ensures old(current) == None && old(ifile) < |names| ==> old(ifile) < ifile
      ensures Advances(old(files), files, names[old(ifile)..ifile], fs)
      ensures Skipped(old(files), files, Handed(r, old(stuck)))
    {
      if current.Some? && files[current.value].cdid >= |files[current.value].lines| {
        current := None;
      }
      var more := true;
      r := NoMore;
      assert names[ifile..ifile] == [];
      AdvancesNot(files, fs);
      while more
        invariant Valid() && old(ifile) <= ifile <= |names|
        invariant ifile == old(ifile) && old(current) == None ==> current == None && (more || ifile == |names|)
        invariant SoFar(r, more, old(log)) && Unnamed(r, old(stuck), spool) && (more ==> r == NoMore)
        invariant Advances(old(files), files, names[old(ifile)..ifile], fs)
        invariant Skipped(old(files), files, Handed(r, old(stuck)))
        decreases more, |names| - ifile, LinesLeft(files, current), current.Some?
      {
        r, more := RoundOn(fs, spool, old(files), old(ifile));
      }
    }

    /** A further round of a call that began with these files at this name. */
    method RoundOn(fs: CString -> Option<seq<CString>>, spool: CString -> bool, ghost was: seq<SFile>, ghost first: nat)
      returns (r: Got, more: bool)
      requires Valid() && first <= ifile
      requires Advances(was, files, names[first..ifile], fs) && Skipped(was, files, {})
      modifies this`ifile, this`files, this`current, this`used, this`log, this`stuck
      ensures Valid() && old(ifile) <= ifile <= |names|
      ensures old(current) == None && old(ifile) < |names| ==> old(ifile) < ifile
      ensures ifile == old(ifile) && old(current) == None ==> current == None
      ensures SoFar(r, more, old(log)) && Unnamed(r, old(stuck), spool) && (more ==> r == NoMore)
      ensures Advances(was, files, names[first..ifile], fs) && Skipped(was, files, Handed(r, old(stuck)))
      ensures more && ifile == old(ifile) ==>
                var left, before := LinesLeft(files, current), LinesLeft(old(files), old(current));
                left < before || (left == before && old(current).Some? && current == None)
    {
      ghost var i, before := ifile, files;
      r, more := Round(fs, spool);
      NamesJoin(names, first, i, ifile);
      AdvancesOn(was, before, files, names[first..i], names[i..ifile], fs);
      SkippedOn(was, before, files, names[i..ifile], Handed(r, old(stuck)), fs);
    }

    ghost predicate SoFar(r: Got, more: bool, before: seq<(nat, nat)>)
      reads this
    {
      if more then log == before else Outcome(r, before)
    }

    /** A round of its loop: a file is opened if there is none, and a line is taken from it. */
    method Round(fs: CString -> Option<seq<CString>>, spool: CString -> bool) returns (r: Got, more: bool)
      requires Valid()
      modifies this`ifile, this`files, this`current, this`used, this`log, this`stuck
      ensures Valid() && old(ifile) <= ifile <= |names|
      ensures old(current) == None && old(ifile) < |names| ==> old(ifile) < ifile
      ensures ifile == old(ifile) && old(current) == None ==> current == None
      ensures SoFar(r, more, old(log)) && Unnamed(r, old(stuck), spool) && (more ==> r == NoMore)
      ensures Advances(old(files), files, names[old(ifile)..ifile], fs)
      ensures Skipped(old(files), files, Handed(r, old(stuck)))
      ensures more && ifile == old(ifile) ==>
                var left, was := LinesLeft(files, current), LinesLeft(old(files), old(current));
                left < was || (left == was && old(current).Some? && current == None)
    {
      assert names[ifile..ifile] == [];
      AdvancesNot(files, fs);
      if current == None {
        more := OpenNext(fs);
        if !more {
          return NoMore, false;
        }
      }
      ghost var before, stretch := files, names[old(ifile)..ifile];
      r, more := LineRound(fs, spool);
      AdvancesOn(old(files), before, files, stretch, [], fs);
      SkippedOn(old(files), before, files, [], Handed(r, old(stuck)), fs);
      assert stretch + [] == stretch;
    }

    /** The part of a round in which a file is open: it is closed at its end, or a line is taken. */
    method LineRound(ghost fs: CString -> Option<seq<CString>>, spool: CString -> bool) returns (r: Got, more: bool)
      requires Valid() && current.Some?
      modifies this`files, this`current, this`log, this`stuck
      ensures Valid() && SoFar(r, more, old(log)) && Unnamed(r, old(stuck), spool) && (more ==> r == NoMore)
      ensures Advances(old(files), files, [], fs) && Skipped(old(files), files, Handed(r, old(stuck)))
      ensures more ==> var left, was := LinesLeft(files, current), LinesLeft(old(files), old(current));
                       left < was || (left == was && current == None)
      ensures !more ==> r != NoMore
    {
      AdvancesNot(files, fs);
      if files[current.value].cdid >= |files[current.value].lines| {
        r, more, current := NoMore, true, None;
      } else {
        ghost var before, f, l := files, current.value, files[current.value].cdid;
        r, more := TakeLine(spool);
        MovedAdvances(before, f, !more, fs);
        MovedCannot(before, f, !more, spool);
        assert Handed(r, old(stuck)) == if more then {} else {(f, l)};
      }
    }

    method MarkDone(f: nat, l: nat)
      requires Valid() && (f, l) in log && (f, l) !in done
      modifies this`files, this`done
      ensures Valid() && done == old(done) + {(f, l)} && f !in removed && f < |files|
    {
      NotOver(files, log, done, stuck, f, l);
      LineIsDone(files, current, log, done, stuck, used, f, l);
      OverAfter(files, done, removed, f, l);
      files := files[f := files[f].(lines := files[f].lines[l := files[f].lines[l].(out := false)])];
      done := done + {(f, l)};
    }

    /** fsysdep_did_work: a command is done. Its file is removed when it was the last one. */
    method DidWork(f: nat, l: nat, removable: bool) returns (gone: bool)
      requires Valid() && (f, l) in log && (f, l) !in done
      modifies this`files, this`done, this`removed, this`current
      ensures Valid() && done == old(done) + {(f, l)} && f !in old(removed)
      ensures removed == if gone then old(removed) + {f} else old(removed)
      ensures gone <==> removable && Over(files, done, f)
    {
      MarkDone(f, l);
      NoneOut(files, log, done, stuck, f);
      var left := StillOut(files[f]);
      gone := removable && !left;
      if gone {
        removed := removed + {f};
        if current == Some(f) {
          current := None;
        }
      }
    }
  }

  /** A used name that sorts behind a new one comes again: one scan takes z, the next one finds a, and a
      third one, before a has been read, puts a where z was. */
  method UsedAgain(z: CString, a: CString, fs: CString -> Option<seq<CString>>, spool: CString -> bool)
    returns (q: WorkQueue)
    requires IsWorkFile(z) && IsWorkFile(a) && !Leq(z, a) && IsGrade(z[2]) && IsGrade(a[2])
    ensures fresh(q) && q.ifile == 1 && |q.names| == 2 && q.names[1].zfile == z && z in q.used
    ensures !q.Valid()
  {
    LeqTotal(z, z);
    q := ScanOne(z, fs, spool);
    ScanTwo(q, z, a);
    ghost var names := q.names;
    var ok := q.GetWorkInit(Listing([z, a]), 'z', 0);
    AllJoin(names, q.names, 1, [z, a]);
    SecondComesAgain(q.names, q.used, z, a);
  }

  method ScanOne(z: CString, fs: CString -> Option<seq<CString>>, spool: CString -> bool) returns (q: WorkQueue)
    requires IsWorkFile(z) && IsGrade(z[2])
    ensures fresh(q) && q.Valid() && q.ifile == |q.names| == 1 && q.used == Names(q.names) == {z}
  {
    q := new WorkQueue();
    var ok := q.GetWorkInit(Listing([z]), 'z', 0);
    AllJoin([], q.names, 0, [z]);
    assert Names(q.names) == {z};
    DistinctCount(q.names);
    OneCall(q, fs, spool);
    assert q.names[..1] == q.names;
  }

  method OneCall(q: WorkQueue, fs: CString -> Option<seq<CString>>, spool: CString -> bool)
    requires q.Valid() && q.ifile < |q.names| && q.current == None
    modifies q`ifile, q`files, q`current, q`used, q`log, q`stuck
    ensures q.Valid() && old(q.ifile) < q.ifile <= |q.names|
  {
    var r := q.GetWork(fs, spool);
  }

  method ScanTwo(q: WorkQueue, z: CString, a: CString)
    requires q.Valid() && q.ifile == |q.names| == 1 && q.used == Names(q.names) == {z}
    requires IsWorkFile(z) && IsGrade(z[2]) && IsWorkFile(a) && IsGrade(a[2]) && a != z
    modifies q
    ensures q.Valid() && q.ifile == 1 && q.used == {z} && Names(q.names) == {z, a}
    ensures |q.names| == 2 && q.names[0].zfile == z && q.names[1].zfile == a
  {
    ghost var names := q.names;
    var ok := q.GetWorkInit(Listing([z, a]), 'z', 0);
    AllJoin(names, q.names, 1, [z, a]);
    TwoNames(q.names, q.used, z, a);
  }

  lemma AllJoin(names: seq<FileName>, more: seq<FileName>, ifile: nat, entries: seq<CString>)
    requires Extends(names, more, ifile, entries, 'z', 0)
    requires forall z | z in entries :: IsWorkFile(z) && IsGrade(z[2])
    ensures Names(more) == Names(names) + set z | z in entries
  {
    assert forall z | z in entries :: Wanted(z, 'z');
  }

  lemma TwoNames(names: seq<FileName>, used: set<CString>, z: CString, a: CString)
    requires Distinct(names) && Names(names) == {z, a} && a != z && NamesOk(names, 1, used) && used == {z}
    ensures |names| == 2 && names[0].zfile == z && names[1].zfile == a
  {
    DistinctCount(names);
    assert names[0] in names[..1] && names[1] in names;
  }

  lemma SecondComesAgain(names: seq<FileName>, used: set<CString>, z: CString, a: CString)
    requires Distinct(names) && Names(names) == {z, a} && a != z && used == {z}
    requires |names| >= 1 && !(used !! Names(names[1..]))
    ensures |names| == 2 && names[1].zfile == z
  {
    DistinctCount(names);
    assert names[1..] == [names[1]];
  }

  /** Whether lines are left to hand out, or commands to be done. */
  method StillOut(file: SFile) returns (left: bool)
    ensures !left <==> file.cdid >= |file.lines| && forall m | 0 <= m < |file.lines| :: !file.lines[m].out
  {
    left := true;
    if file.cdid < |file.lines| {
      return;
    }
    var i := 0;
    while i < |file.lines|
      invariant 0 <= i <= |file.lines|
      invariant forall m | 0 <= m < i :: !file.lines[m].out
    {
      if file.lines[i].out {
        return;
      }
      i := i + 1;
    }
    left := false;
  }

  lemma LineIsDone(files: seq<SFile>, current: Option<nat>, log: seq<(nat, nat)>, done: set<(nat, nat)>,
                   stuck: set<(nat, nat)>, used: set<CString>, f: nat, l: nat)
    requires Served(files, current, log, done, stuck, used) && (f, l) in log
    ensures f < |files| && l < |files[f].lines|
    ensures Served(files[f := files[f].(lines := files[f].lines[l := files[f].lines[l].(out := false)])],
                   current, log, done + {(f, l)}, stuck, used)
  {
    assert Taken(files, (f, l));
    var r := files[f := files[f].(lines := files[f].lines[l := files[f].lines[l].(out := false)])];
    var more := done + {(f, l)};
    assert files[f] in files;
    forall p | p in log || p in stuck ensures Taken(r, p) && !(p in log && p in stuck) {
      assert Taken(files, p);
    }
    forall g, m | 0 <= g < |r| && 0 <= m < |r[g].lines| ensures LineOk(r, log, more, stuck, g, m) {
      assert LineOk(files, log, done, stuck, g, m);
    }
  }

  lemma NotOver(files: seq<SFile>, log: seq<(nat, nat)>, done: set<(nat, nat)>, stuck: set<(nat, nat)>,
                    f: nat, l: nat)
    requires Accounted(files, log, done, stuck) && FilesOk(files) && (f, l) in log && (f, l) !in done
    ensures !Over(files, done, f) && f < |files| && l < |files[f].lines|
  {
    assert Taken(files, (f, l)) && LineOk(files, log, done, stuck, f, l);
  }

  lemma OverBefore(files: seq<SFile>, done: set<(nat, nat)>, removed: set<nat>, file: SFile)
    requires AllOver(files, done, removed)
    ensures AllOver(files + [file], done, removed)
  {
    assert forall f | f in removed :: Over(files, done, f);
  }

  lemma OverWithout(files: seq<SFile>, f: nat, out: bool, done: set<(nat, nat)>, removed: set<nat>)
    requires AllOver(files, done, removed) && f < |files| && files[f].cdid < |files[f].lines|
    ensures AllOver(Moved(files, f, out), done, removed)
  {
    assert forall g | g in removed :: Over(files, done, g);
  }

  lemma OverAfter(files: seq<SFile>, done: set<(nat, nat)>, removed: set<nat>, f: nat, l: nat)
    requires AllOver(files, done, removed) && f !in removed && f < |files| && l < |files[f].lines|
    ensures AllOver(files[f := files[f].(lines := files[f].lines[l := files[f].lines[l].(out := false)])],
                        done + {(f, l)}, removed)
  {
    assert forall g | g in removed :: Over(files, done, g);
  }

  /** When no line of a file is out, all its commands are done, and the other way round. */
  lemma NoneOut(files: seq<SFile>, log: seq<(nat, nat)>, done: set<(nat, nat)>, stuck: set<(nat, nat)>, f: nat)
    requires Accounted(files, log, done, stuck) && f < |files| && files[f].cdid <= |files[f].lines|
    ensures files[f].cdid == |files[f].lines| ==>
              forall m | 0 <= m < |files[f].lines| ::
                !files[f].lines[m].out <==> (f, m) in done || Parse(files[f].lines[m].zline).None?
  {
    forall m | 0 <= m < |files[f].lines| && files[f].cdid == |files[f].lines|
      ensures !files[f].lines[m].out <==> (f, m) in done || Parse(files[f].lines[m].zline).None?
    {
      assert LineOk(files, log, done, stuck, f, m);
      if (f, m) in done { assert Taken(files, (f, m)); }
    }
  }

  /** A line is taken: the count goes up, and the line is marked if it is out. */
  function Moved(files: seq<SFile>, f: nat, out: bool): (r: seq<SFile>)
    requires f < |files| && files[f].cdid < |files[f].lines|
    ensures |r| == |files|
  {
    var file := files[f];
    var l := file.cdid;
    files[f := file.(cdid := l + 1, lines := file.lines[l := file.lines[l].(out := out)])]
  }

  function LinesLeft(files: seq<SFile>, current: Option<nat>): nat
    requires FilesOk(files)
    requires current.Some? ==> current.value < |files|
  {
    if current.None? then 0 else |files[current.value].lines| - files[current.value].cdid
  }

  lemma MovedOk(files: seq<SFile>, current: Option<nat>, used: set<CString>, out: bool)
    requires FilesOk(files) && AllTaken(files, current) && current.Some?
    requires forall f | f in files :: Listed(f, used)
    requires files[current.value].cdid < |files[current.value].lines|
    ensures var r := Moved(files, current.value, out);
            FilesOk(r) && AllTaken(r, current) && forall f | f in r :: Listed(f, used)
  {
    assert files[current.value] in files;
  }

  lemma BadLine(files: seq<SFile>, current: Option<nat>, log: seq<(nat, nat)>,
                done: set<(nat, nat)>, stuck: set<(nat, nat)>, used: set<CString>)
    requires Served(files, current, log, done, stuck, used) && current.Some?
    requires var file := files[current.value];
             file.cdid < |file.lines| && Parse(file.lines[file.cdid].zline).None?
    ensures Served(Moved(files, current.value, false), current, log, done, stuck, used)
  {
    var f := current.value;
    var l := files[f].cdid;
    var r := Moved(files, f, false);
    MovedOk(files, current, used, false);
    StillTaken(files, f, false, log, stuck);
    assert LineOk(files, log, done, stuck, f, l);
    forall g, m | 0 <= g < |r| && 0 <= m < |r[g].lines| ensures LineOk(r, log, done, stuck, g, m) {
      assert LineOk(files, log, done, stuck, g, m);
      if (g, m) == (f, l) { NotTakenYet(files, log, stuck, (f, l)); }
    }
  }

  lemma StillTaken(files: seq<SFile>, f: nat, out: bool, log: seq<(nat, nat)>, stuck: set<(nat, nat)>)
    requires f < |files| && files[f].cdid < |files[f].lines|
    requires forall p {:trigger Taken(files, p)} | p in log :: Taken(files, p) && p !in stuck
    requires forall p {:trigger Taken(files, p)} | p in stuck :: Taken(files, p)
    ensures forall p {:trigger Taken(Moved(files, f, out), p)} | p in log ::
              Taken(Moved(files, f, out), p) && p !in stuck
    ensures forall p {:trigger Taken(Moved(files, f, out), p)} | p in stuck :: Taken(Moved(files, f, out), p)
  {
    forall p | p in log || p in stuck
      ensures Taken(Moved(files, f, out), p) && !(p in log && p in stuck)
    {
      assert Taken(files, p);
    }
  }

  lemma NotTakenYet(files: seq<SFile>, log: seq<(nat, nat)>, stuck: set<(nat, nat)>, p: (nat, nat))
    requires forall q {:trigger Taken(files, q)} | q in log :: Taken(files, q)
    requires forall q {:trigger Taken(files, q)} | q in stuck :: Taken(files, q)
    requires !Taken(files, p)
    ensures p !in log && p !in stuck
  {
  }

  lemma StuckLine(files: seq<SFile>, current: Option<nat>, log: seq<(nat, nat)>,
                  done: set<(nat, nat)>, stuck: set<(nat, nat)>, used: set<CString>)
    requires Served(files, current, log, done, stuck, used) && current.Some?
    requires var file := files[current.value];
             file.cdid < |file.lines| && Parse(file.lines[file.cdid].zline).Some?
    ensures Served(Moved(files, current.value, true), current, log, done,
                   stuck + {(current.value, files[current.value].cdid)}, used)
  {
    var f := current.value;
    var l := files[f].cdid;
    var r, more := Moved(files, f, true), stuck + {(f, l)};
    MovedOk(files, current, used, true);
    StillTaken(files, f, true, log, stuck);
    NotTakenYet(files, log, stuck, (f, l));
    forall g, m | 0 <= g < |r| && 0 <= m < |r[g].lines| ensures LineOk(r, log, done, more, g, m) {
      assert LineOk(files, log, done, stuck, g, m);
    }
    forall p | p in log || p in more ensures Taken(r, p) && !(p in log && p in more) {
      assert p in stuck || p in log ==> Taken(r, p);
    }
  }

  lemma GoodLine(files: seq<SFile>, current: Option<nat>, log: seq<(nat, nat)>,
                 done: set<(nat, nat)>, stuck: set<(nat, nat)>, used: set<CString>)
    requires Served(files, current, log, done, stuck, used) && current.Some?
    requires var file := files[current.value];
             file.cdid < |file.lines| && Parse(file.lines[file.cdid].zline).Some?
    ensures Served(Moved(files, current.value, true), current,
                   log + [(current.value, files[current.value].cdid)], done, stuck, used)
  {
    var f := current.value;
    var l := files[f].cdid;
    var r, more := Moved(files, f, true), log + [(f, l)];
    MovedOk(files, current, used, true);
    StillTaken(files, f, true, log, stuck);
    NotTakenYet(files, log, stuck, (f, l));
    forall g, m | 0 <= g < |r| && 0 <= m < |r[g].lines| ensures LineOk(r, more, done, stuck, g, m) {
      assert LineOk(files, log, done, stuck, g, m);
    }
    forall p | p in more ensures Taken(r, p) && p !in stuck {
      assert p in log || p == (f, l);
      assert p in log ==> Taken(r, p);
    }
    forall i, j | 0 <= i < j < |more| ensures Before(more[i], more[j]) {
      if j < |log| { assert Before(log[i], log[j]); } else { assert log[i] in log && Taken(files, log[i]); }
    }
  }

  function NotTaken(lines: seq<CString>): (r: seq<Line>)
    ensures |r| == |lines| && forall i | 0 <= i < |r| :: r[i] == Line(lines[i], false)
  {
    seq(|lines|, i requires 0 <= i < |lines| => Line(lines[i], false))
  }
}
