/** fparse_cmd of lib/parse.c as it works: strtok cuts the line in place, the command's string
    pointers are left pointing into it, and cescape rewrites the fields where they are. */
module CommandParser {
  import opened Wrappers
  import opened Escape
  import opened Command

  /** struct scmd with its pointers as offsets into the line. */
  datatype Pointers = Pointers(bcmd: char, from: Option<nat>, to: Option<nat>, user: Option<nat>,
                               options: Option<nat>, temp: Option<nat>, mode: Uint,
                               notify: Option<nat>, bytes: int, cmd: Option<nat>, pos: int)

  /** What a pointer points to. */
  function StringAt(s: seq<char>, p: nat): CString
    requires p <= |s|
  {
    UpToNul(s[p..])
  }

  predicate Points(s: seq<char>, p: Option<nat>, t: Option<CString>) {
    if p.None? then t.None? else p.value <= |s| && t == Some(StringAt(s, p.value))
  }

  /** The structure and the line it points into amount to a command. */
  predicate Shows(s: seq<char>, q: Pointers, c: Scmd) {
    && q.bcmd == c.bcmd && q.mode == c.mode && q.bytes == c.bytes && q.pos == c.pos
    && Points(s, q.from, c.from) && Points(s, q.to, c.to) && Points(s, q.user, c.user)
    && Points(s, q.options, c.options) && Points(s, q.temp, c.temp)
    && Points(s, q.notify, c.notify) && Points(s, q.cmd, c.cmd)
  }

  // ---------- fields of the line ----------

  /** A stretch of the line, with the NUL that ends it and the string it holds. */
  datatype Field = Field(p: nat, e: nat, t: CString)

  predicate Owns(s: seq<char>, f: Field) {
    f.p <= f.e < |s| && s[f.e] == '\0' && UpToNul(s[f.p..f.e]) == f.t
  }

  predicate Laid(s: seq<char>, fs: seq<Field>, save: nat) {
    && (forall i {:trigger Kept(s, fs[i], save)} | 0 <= i < |fs| :: Kept(s, fs[i], save))
    && (forall i, j {:trigger Before(fs[i], fs[j])} | 0 <= i < j < |fs| :: Before(fs[i], fs[j]))
  }

  predicate Kept(s: seq<char>, f: Field, save: nat) { Owns(s, f) && f.e <= save }

  predicate Before(f: Field, g: Field) { f.e < g.p }

  /** Nothing in the field has been unquoted. */
  predicate Raw(f: Field) { |f.t| == f.e - f.p && IsCString(f.t) }

  lemma UpToNulWhole(s: seq<char>)
    requires |UpToNul(s)| == |s|
    ensures UpToNul(s) == s
  {
    if s != [] { UpToNulWhole(s[1..]); }
  }

  lemma UpToNulStops(s: seq<char>, n: nat)
    requires n < |s| && s[n] == '\0'
    ensures UpToNul(s) == UpToNul(s[..n])
  {
    if n > 0 {
      assert s[..n][1..] == s[1..][..n - 1];
      UpToNulStops(s[1..], n - 1);
    }
  }

  lemma OwnsPoints(s: seq<char>, f: Field)
    requires Owns(s, f)
    ensures StringAt(s, f.p) == f.t
  {
    UpToNulStops(s[f.p..], f.e - f.p);
    assert s[f.p..][..f.e - f.p] == s[f.p..f.e];
  }

  lemma OwnsStays(s: seq<char>, t: seq<char>, f: Field)
    requires Owns(s, f) && |s| == |t| && forall k | f.p <= k <= f.e :: s[k] == t[k]
    ensures Owns(t, f)
  {
    assert s[f.p..f.e] == t[f.p..f.e];
  }

  /** A new field behind the others. */
  lemma LaidMore(s: seq<char>, t: seq<char>, fs: seq<Field>, save: nat, f: Field, next: nat)
    requires Laid(s, fs, save) && |s| == |t| && save <= f.p <= f.e < |s| && f.e <= next
    requires forall k | 0 <= k < f.e :: s[k] == t[k]
    requires s[f.p] != '\0' && Owns(t, f)
    ensures Laid(t, fs + [f], next)
  {
    var gs := fs + [f];
    forall i | 0 <= i < |fs| ensures Kept(t, gs[i], next) && Before(gs[i], f) {
      assert Kept(s, fs[i], save);
      assert s[fs[i].e] == '\0';
      OwnsStays(s, t, fs[i]);
    }
    forall i, j | 0 <= i < j < |gs| ensures Before(gs[i], gs[j]) {
      assert j < |fs| ==> Before(fs[i], fs[j]);
    }
  }

  /** A field rewritten in place. */
  lemma LaidChanged(s: seq<char>, t: seq<char>, fs: seq<Field>, save: nat, i: nat, text: CString)
    requires Laid(s, fs, save) && |s| == |t| && i < |fs| && Kept(s, fs[i], save)
    requires forall k | 0 <= k < |s| && (k < fs[i].p || fs[i].e <= k) :: s[k] == t[k]
    requires UpToNul(t[fs[i].p..fs[i].e]) == text
    ensures Laid(t, fs[i := Field(fs[i].p, fs[i].e, text)], save)
  {
    var gs := fs[i := Field(fs[i].p, fs[i].e, text)];
    forall j | 0 <= j < |gs| ensures Kept(t, gs[j], save) {
      if j != i {
        assert Kept(s, fs[j], save) && (j < i ==> Before(fs[j], fs[i])) && (i < j ==> Before(fs[i], fs[j]));
        OwnsStays(s, t, fs[j]);
      }
    }
    forall j, k | 0 <= j < k < |gs| ensures Before(gs[j], gs[k]) {
      assert Before(fs[j], fs[k]);
    }
  }

  // ---------- which field a pointer points to ----------

  predicate Link(p: Option<nat>, t: Option<CString>, fs: seq<Field>, i: int) {
    if p.None? then t.None? else 0 <= i < |fs| && p.value == fs[i].p && t == Some(fs[i].t)
  }

  /** The words of a line in the order of the line; the command text is the last field. */
  predicate Linked(q: Pointers, c: Scmd, fs: seq<Field>) {
    && q.bcmd == c.bcmd && q.mode == c.mode && q.bytes == c.bytes && q.pos == c.pos
    && Link(q.from, c.from, fs, 1) && Link(q.to, c.to, fs, 2) && Link(q.user, c.user, fs, 3)
    && Link(q.options, c.options, fs, 4) && Link(q.temp, c.temp, fs, 5)
    && Link(q.notify, c.notify, fs, 7) && Link(q.cmd, c.cmd, fs, |fs| - 1)
    && (q.cmd.Some? ==> |fs| > 8)
  }

  lemma LinkedMore(q: Pointers, c: Scmd, fs: seq<Field>, f: Field)
    requires Linked(q, c, fs) && c.cmd.None?
    ensures Linked(q, c, fs + [f])
  {
  }

  lemma LinkedShows(s: seq<char>, q: Pointers, c: Scmd, fs: seq<Field>, save: nat)
    requires Laid(s, fs, save) && Linked(q, c, fs)
    ensures Shows(s, q, c)
  {
    forall i | 0 <= i < |fs| ensures fs[i].p <= |s| && StringAt(s, fs[i].p) == fs[i].t {
      assert Kept(s, fs[i], save);
      OwnsPoints(s, fs[i]);
    }
  }

  predicate Result(s: seq<char>, ok: bool, q: Pointers, c: Option<Scmd>) {
    if c.None? then !ok else ok && Shows(s, q, c.value)
  }

  predicate AllRaw(fs: seq<Field>) { forall i {:trigger Raw(fs[i])} | 0 <= i < |fs| :: Raw(fs[i]) }

  // ---------- strtok ----------

  lemma {:induction false} SkipsBlanks(b: CString, s: CString)
    requires (forall i | 0 <= i < |b| :: IsBlank(b[i])) && (s == [] || !IsBlank(s[0]))
    ensures SkipBlanks(b + s) == s
  {
    if b == [] {
      assert b + s == s;
    } else {
      assert (b + s)[1..] == b[1..] + s;
      SkipsBlanks(b[1..], s);
    }
  }

  /** The word that starts at p and ends before q, after the blanks from save on. */
  predicate Cuts(s: seq<char>, save: nat, end: nat, p: nat, q: nat) {
    && save <= p < q <= end <= |s|
    && (forall k | save <= k < p :: IsBlank(s[k]))
    && (forall k | p <= k < q :: !IsBlank(s[k]))
    && (q < end ==> IsBlank(s[q]))
  }

  lemma CutsToken(s: seq<char>, save: nat, end: nat, p: nat, q: nat)
    requires Cuts(s, save, end, p, q)
    ensures NextToken(s[save..end]) == Some(Token(s[p..q], if q == end then [] else s[q + 1..end]))
  {
    ThreeParts(s, save, p, q, end);
    TokenIn(s[save..p], s[p..q], s[q..end]);
    assert q < end ==> s[q..end][1..] == s[q + 1..end];
  }

  lemma ThreeParts(s: seq<char>, save: nat, p: nat, q: nat, end: nat)
    requires save <= p <= q <= end <= |s|
    ensures s[save..end] == s[save..p] + (s[p..q] + s[q..end])
  {
  }

  lemma TokenIn(b: CString, w: CString, rest: CString)
    requires forall i | 0 <= i < |b| :: IsBlank(b[i])
    requires w != [] && BlankFree(w) && (rest == [] || IsBlank(rest[0]))
    ensures NextToken(b + (w + rest)) == Some(Token(w, if rest == [] then [] else rest[1..]))
  {
    assert (w + rest)[0] == w[0];
    SkipsBlanks(b, w + rest);
    WordIs(w, rest);
    assert rest != [] ==> (w + rest)[|w| + 1..] == rest[1..];
  }

  lemma CutsNothing(s: seq<char>, save: nat, end: nat)
    requires save <= end <= |s| && forall k | save <= k < end :: IsBlank(s[k])
    ensures NextToken(s[save..end]) == None
  {
    NoToken(s[save..end]);
  }

  lemma WordIsRaw(s: seq<char>, save: nat, end: nat, p: nat, q: nat)
    requires save <= p <= q <= end <= |s| && IsCString(s[save..end])
    ensures Raw(Field(p, q, s[p..q]))
  {
    forall k | p <= k < q ensures s[k] != '\0' && IsByte(s[k]) { assert s[k] == s[save..end][k - save]; }
  }

  /** The word becomes a field when the blank after it, if there is one, becomes a NUL. */
  lemma WordTaken(s: seq<char>, t: seq<char>, fs: seq<Field>, save: nat, end: nat, p: nat, q: nat, next: nat)
    requires Laid(s, fs, save) && AllRaw(fs)
    requires Cuts(s, save, end, p, q) && end < |s| && s[end] == '\0' && IsCString(s[save..end])
    requires t == s[q := '\0'] && next == if q == end then end else q + 1
    ensures var f := Field(p, q, s[p..q]);
            && Laid(t, fs + [f], next) && AllRaw(fs + [f])
            && NextToken(s[save..end]) == Some(Token(f.t, t[next..end]))
    ensures t[end] == '\0' && IsCString(t[next..end])
  {
    CutsToken(s, save, end, p, q);
    WordCut(s, t, save, end, p, q, next);
    LaidMore(s, t, fs, save, Field(p, q, s[p..q]), next);
  }

  lemma WordCut(s: seq<char>, t: seq<char>, save: nat, end: nat, p: nat, q: nat, next: nat)
    requires save <= p < q <= end < |s| && s[end] == '\0' && IsCString(s[save..end])
    requires t == s[q := '\0'] && next == if q == end then end else q + 1
    ensures var f := Field(p, q, s[p..q]); Raw(f) && Owns(t, f) && s[p] != '\0'
    ensures t[end] == '\0' && IsCString(t[next..end]) && t[next..end] == s[next..end]
  {
    WordIsRaw(s, save, end, p, q);
    assert t[p..q] == s[p..q];
    assert s[p] == s[save..end][p - save];
    forall k | next <= k < end ensures t[k] == s[k] && s[k] != '\0' && IsByte(s[k]) {
      assert s[k] == s[save..end][k - save];
    }
  }

  /** The field a pointer, if it is not NULL, points to, not yet unquoted. */
  predicate PointsTo(fs: seq<Field>, z: Option<nat>, i: int) {
    z.Some? ==> 0 <= i < |fs| && Raw(fs[i]) && z.value == fs[i].p
  }

  function UnquotedAt(fs: seq<Field>, z: Option<nat>, i: int): (r: seq<Field>)
    requires z.Some? ==> 0 <= i < |fs|
    ensures |r| == |fs|
  {
    if z.None? then fs else fs[i := Unquoted(fs[i])]
  }

  lemma UnquotedLinked(q: Pointers, c: Scmd, fs: seq<Field>)
    requires AllRaw(fs) && Linked(q, c, fs)
    ensures PointsTo(fs, q.from, 1)
    ensures var fs1 := UnquotedAt(fs, q.from, 1);
            PointsTo(fs1, q.to, 2)
            && var fs2 := UnquotedAt(fs1, q.to, 2);
            PointsTo(fs2, q.user, 3)
            && var fs3 := UnquotedAt(fs2, q.user, 3);
            PointsTo(fs3, q.notify, 7)
            && var fs4 := UnquotedAt(fs3, q.notify, 7);
            PointsTo(fs4, q.cmd, |fs| - 1)
            && (c.options.Some? && 'q' in c.options.value
                ==> Linked(q, Unquote(c), UnquotedAt(fs4, q.cmd, |fs| - 1)))
  {
  }

  lemma PositionStep(c: Scmd, s: CString, skip: nat)
    ensures var t := NextToken(s);
            ParsePosition(c, s, skip)
            == if t.None? then c
               else if skip > 0 then ParsePosition(c, t.value.rest, skip - 1)
               else c.(pos := OrElse(Strtol(t.value.word), 0))
  {
  }

  lemma FieldIsString(s: seq<char>, fs: seq<Field>, save: nat, i: nat)
    requires Laid(s, fs, save) && i < |fs| && Raw(fs[i])
    ensures Kept(s, fs[i], save) && s[fs[i].p..fs[i].e] == fs[i].t
  {
    assert Kept(s, fs[i], save);
    RawField(s, fs[i]);
  }

  /** The unquoted text and its NUL have replaced that of the field. */
  ghost predicate Rewrote(s: seq<char>, t: seq<char>, f: Field) {
    && |s| == |t| && f.p + |Unescape(f.t)| <= f.e < |s|
    && t[f.p..f.p + |Unescape(f.t)|] == Unescape(f.t) && t[f.p + |Unescape(f.t)|] == '\0'
    && forall k {:trigger t[k]} | 0 <= k < |s| && (k < f.p || f.e <= k) :: t[k] == s[k]
  }

  lemma SameRest(s: seq<char>, t: seq<char>, f: Field, save: nat, end: nat)
    requires Rewrote(s, t, f) && f.e <= save <= end < |s|
    ensures t[save..end] == s[save..end] && t[end] == s[end]
  {
  }

  class Parser {
    const line: array<char>
    /** strtok's place in the line. */
    var save: nat
    ghost const end: nat
    ghost var fields: seq<Field>

    constructor (line: array<char>, ghost end: nat)
      requires end < line.Length && line[end] == '\0' && IsCString(line[..end])
      ensures Valid() && AllRaw(fields) && fields == []
      ensures this.line == line && Rest() == line[..end]
    {
      this.line := line;
      this.end := end;
      save := 0;
      fields := [];
    }

    ghost predicate Valid()
      reads this, line
    {
      && save <= end < line.Length && line[end] == '\0' && IsCString(line[save..end])
      && Laid(line[..], fields, save)
    }

    /** What strtok has not looked at. */
    ghost function Rest(): CString
      requires Valid()
      reads this, line
    {
      line[save..end]
    }

    /** strspn: past the blanks. */
    method SkipOver() returns (p: nat)
      requires Valid()
      ensures save <= p <= end && (p < end ==> !IsBlank(line[p]))
      ensures forall k | save <= k < p :: IsBlank(line[k])
      ensures line[p] == '\0' <==> p == end
    {
      p := save;
      while IsBlank(line[p])
        invariant save <= p <= end
        invariant forall k | save <= k < p :: IsBlank(line[k])
        decreases end - p
      {
        p := p + 1;
      }
      assert p < end ==> line[p] == line[save..end][p - save];
    }

    /** strcspn: to the end of the word. */
    method WordEnd(p: nat) returns (q: nat)
      requires Valid() && save <= p < end && !IsBlank(line[p])
      ensures p < q <= end && (q < end ==> IsBlank(line[q]))
      ensures forall k | p <= k < q :: !IsBlank(line[k])
      ensures line[q] == '\0' <==> q == end
    {
      q := p;
      assert forall k | save <= k < end :: line[k] == line[save..end][k - save];
      while line[q] != '\0' && !IsBlank(line[q])
        invariant p <= q <= end
        invariant forall k | p <= k < q :: !IsBlank(line[k])
        decreases end - q
      {
        q := q + 1;
      }
    }

    /** strtok (NULL, " \t\n"). */
    method Strtok() returns (z: Option<nat>)
      requires Valid() && AllRaw(fields)
      modifies this, line
      ensures Valid() && AllRaw(fields)
      ensures var t := NextToken(old(Rest()));
              if t.None? then z == None && fields == old(fields)
              else z.Some? && Rest() == t.value.rest
                   && fields == old(fields) + [Field(z.value, z.value + |t.value.word|, t.value.word)]
    {
      ghost var s := line[..];
      assert Rest() == s[save..end];
      var p := SkipOver();
      if line[p] == '\0' {
        CutsNothing(s, save, end);
        return None;
      }
      var q := WordEnd(p);
      ghost var was, f := save, Field(p, q, s[p..q]);
      if line[q] == '\0' {
        save := q;
      } else {
        line[q] := '\0';
        save := q + 1;
      }
      WordTaken(s, line[..], fields, was, end, p, q, save);
      assert line[..][save..end] == line[save..end];
      fields := fields + [f];
      z := Some(p);
    }
  
    /** strlen. */
    method StringEnd(p: nat) returns (e: nat)
      requires p <= end < line.Length && line[end] == '\0' && IsCString(line[p..end])
      ensures e == end
    {
      e := p;
      while line[e] != '\0'
        invariant p <= e <= end
        decreases end - e
      {
        e := e + 1;
      }
    }

    /** The rest of the line up to its newline: strtok with no delimiters, and the cut. */
    method TakeText() returns (z: Option<nat>)
      requires Valid() && AllRaw(fields)
      modifies this, line
      ensures Valid() && AllRaw(fields)
      ensures if old(Rest()) == [] then z == None && fields == old(fields)
              else var t := UpToNewline(old(Rest()));
                   z.Some? && fields == old(fields) + [Field(z.value, z.value + |t|, t)]
    {
      ghost var s := line[..];
      assert Rest() == s[save..end];
      if line[save] == '\0' {
        return None;
      }
      var p, q := save, save;
      save := StringEnd(p);
      while line[q] != '\0' && line[q] != '\n'
        invariant p <= q <= end
        invariant forall k | p <= k < q :: line[k] != '\n'
        decreases end - q
      {
        q := q + 1;
      }
      line[q] := '\0';
      TextTaken(s, line[..], fields, p, end, q);
      fields := fields + [Field(p, q, s[p..q])];
      z := Some(p);
    }

    /** cescape on a field. */
    method UnquoteField(z: Option<nat>, ghost i: int)
      requires Valid()
      requires PointsTo(fields, z, i)
      modifies this, line
      ensures Valid() && save == old(save)
      ensures fields == UnquotedAt(old(fields), z, i)
    {
      if z.Some? {
        ghost var s, f := line[..], fields[i];
        FieldIsString(s, fields, save, i);
        assert line[save..end] == s[save..end];
        RewriteField(z.value, s, f);
        ghost var t := line[..];
        FieldUnquoted(s, t, fields, save, i);
        SameRest(s, t, f, save, end);
        fields := fields[i := Unquoted(f)];
        assert line[save..end] == t[save..end];
      }
    }

    method RewriteField(z: nat, ghost s: seq<char>, ghost f: Field)
      requires s == line[..] && z == f.p <= f.e < |s| && s[f.e] == '\0'
      requires s[f.p..f.e] == f.t && IsCString(f.t)
      modifies line
      ensures Rewrote(s, line[..], f)
    {
      ghost var u := Unescape(f.t);
      assert line[f.p..f.e] == f.t;
      var n := Cescape(line, z, f.e);
      ghost var t := line[..];
      assert n == |u| && t[f.p..f.p + n] == line[f.p..f.p + n] == u;
    }

    /** ulunquote_cmd. */
    method Ulunquote(q: Pointers, ghost c: Scmd)
      requires Valid() && AllRaw(fields) && Linked(q, c, fields)
      modifies this, line
      ensures Shows(line[..], q, Unquote(c))
    {
      LinkedShows(line[..], q, c, fields, save);
      if q.options.None? {
        return;
      }
      if 'q' in StringAt(line[..], q.options.value) {
        UnquoteAll(q, c);
        LinkedShows(line[..], q, Unquote(c), fields, save);
      }
    }

    method UnquoteAll(q: Pointers, ghost c: Scmd)
      requires Valid() && AllRaw(fields) && Linked(q, c, fields)
      requires c.options.Some? && 'q' in c.options.value
      modifies this, line
      ensures Valid() && Linked(q, Unquote(c), fields)
    {
      ghost var n := |fields| - 1;
      UnquotedLinked(q, c, fields);
      UnquoteField(q.from, 1);
      UnquoteField(q.to, 2);
      UnquoteField(q.user, 3);
      UnquoteField(q.notify, 7);
      UnquoteField(q.cmd, n);
    }

    // ---------- fparse_cmd, word by word ----------

    method FparseCmd() returns (ok: bool, q: Pointers)
      requires Valid() && AllRaw(fields) && fields == []
      modifies this, line
      ensures Result(line[..], ok, q, Parse(old(Rest())))
    {
      q := Pointers('\0', None, None, None, None, None, 0x1b6, None, -1, None, 0);
      var z := Strtok();
      if z.None? {
        return false, q;
      }
      var w := Word(line[..], z.value);
      var b := w[0];
      if !IsLetter(b) && b != 'H' && b != 'P' {
        return false, q;
      }
      q := q.(bcmd := b);
      if b == 'H' {
        if |w| > 1 {
          if w[1] == 'Y' { q := q.(bcmd := 'Y'); }
          else if w[1] == 'N' { q := q.(bcmd := 'N'); }
          else { return false, q; }
        }
        return true, q;
      }
      if b == 'P' {
        return true, q;
      }
      if |w| > 1 {
        return false, q;
      }
      ok, q := FparseFrom(q, Fresh(b));
    }

    /** The string a pointer that strtok has just returned points to. */
    method Word(ghost s: seq<char>, z: nat) returns (w: CString)
      requires Valid() && s == line[..] && fields != [] && z == fields[|fields| - 1].p
      ensures w == fields[|fields| - 1].t
    {
      assert Kept(s, fields[|fields| - 1], save);
      OwnsPoints(s, fields[|fields| - 1]);
      w := StringAt(line[..], z);
    }

    /** Between two calls of strtok: so many words taken, and what they amount to. */
    ghost predicate Stage(p: Pointers, c: Scmd, words: nat)
      reads this, line
    {
      Valid() && AllRaw(fields) && |fields| == words && Linked(p, c, fields) && c.cmd.None?
    }

    /** strtok again, and the word it finds. */
    method NextWord(ghost p: Pointers, ghost c: Scmd) returns (z: Option<nat>, w: CString)
      requires Stage(p, c, |fields|)
      modifies this, line
      ensures Stage(p, c, |fields|)
      ensures var t := NextToken(old(Rest()));
              if t.None? then z == None && |fields| == |old(fields)|
              else z.Some? && w == t.value.word && Rest() == t.value.rest
                   && |fields| == |old(fields)| + 1
                   && fields[|fields| - 1].p == z.value && fields[|fields| - 1].t == w
    {
      w := [];
      ghost var fs := fields;
      z := Strtok();
      if z.Some? { LinkedMore(p, c, fs, fields[|fs|]); w := Word(line[..], z.value); }
    }

    method LastText(ghost p: Pointers, ghost c: Scmd) returns (z: Option<nat>, ghost w: CString)
      requires Stage(p, c, |fields|) && |fields| > 8
      modifies this, line
      ensures Valid() && AllRaw(fields)
      ensures if old(Rest()) == [] then z == None && Linked(p, c, fields)
              else z.Some? && w == UpToNewline(old(Rest()))
                   && Linked(p.(cmd := z), c.(cmd := Some(w)), fields)
    {
      w := UpToNewline(Rest());
      z := TakeText();
    }

    method FparseFrom(p: Pointers, ghost c: Scmd) returns (ok: bool, q: Pointers)
      requires Stage(p, c, 1)
      modifies this, line
      ensures Result(line[..], ok, q, ParseFrom(c, old(Rest())))
    {
      q := p;
      var z, w := NextWord(q, c);
      if z.None? {
        return false, q;
      }
      ok, q := FparseTo(q.(from := z), c.(from := Some(w)));
    }

    method FparseTo(p: Pointers, ghost c: Scmd) returns (ok: bool, q: Pointers)
      requires Stage(p, c, 2)
      modifies this, line
      ensures Result(line[..], ok, q, ParseTo(c, old(Rest())))
    {
      q := p;
      var z, w := NextWord(q, c);
      if z.None? {
        return false, q;
      }
      ok, q := FparseUser(q.(to := z), c.(to := Some(w)));
    }

    method FparseUser(p: Pointers, ghost c: Scmd) returns (ok: bool, q: Pointers)
      requires Stage(p, c, 3)
      modifies this, line
      ensures Result(line[..], ok, q, ParseUser(c, old(Rest())))
    {
      q := p;
      var z, w := NextWord(q, c);
      if z.None? {
        return false, q;
      }
      ok, q := FparseOptions(q.(user := z), c.(user := Some(w)));
    }

    method FparseOptions(p: Pointers, ghost c: Scmd) returns (ok: bool, q: Pointers)
      requires Stage(p, c, 4)
      modifies this, line
      ensures Result(line[..], ok, q, ParseOptions(c, old(Rest())))
    {
      q := p;
      var z, w := NextWord(q, c);
      if z.None? {
        return false, q;
      }
      if w[0] != '-' {
        return false, q;
      }
      SkipDash();
      q := q.(options := Some(z.value + 1));
      ghost var d := c.(options := Some(w[1..]));
      ok := true;
      if q.bcmd == 'X' {
        Ulunquote(q, d);
      } else if q.bcmd == 'R' {
        q := FparseRequest(q, d);
      } else {
        ok, q := FparseTemp(q, d);
      }
    }

    method FparseRequest(p: Pointers, ghost c: Scmd) returns (q: Pointers)
      requires Stage(p, c, 5)
      modifies this, line
      ensures Shows(line[..], q, Unquote(ParseSize(c, old(Rest()))))
    {
      ghost var d := ParseSize(c, Rest());
      q := FparseSize(p, c);
      Ulunquote(q, d);
    }

    /** z + 1: the pointer skips the first character of its field. */
    ghost method SkipDash()
      requires Valid() && AllRaw(fields) && fields != [] && fields[|fields| - 1].t != []
      modifies this
      ensures Valid() && AllRaw(fields) && save == old(save)
      ensures var n := |old(fields)| - 1; var f := old(fields)[n];
              fields == old(fields)[n := Field(f.p + 1, f.e, f.t[1..])]
    {
      DashSkipped(line[..], fields, save);
      var n := |fields| - 1;
      var f := fields[n];
      fields := fields[n := Field(f.p + 1, f.e, f.t[1..])];
    }

    /** The words of a request after its options. */
    method FparseSize(p: Pointers, ghost c: Scmd) returns (q: Pointers)
      requires Stage(p, c, 5)
      modifies this, line
      ensures Valid() && AllRaw(fields) && Linked(q, ParseSize(c, old(Rest())), fields)
    {
      q := p;
      var z, w := NextWord(q, c);
      if z.Some? {
        if w != "dummy" {
          q := q.(bytes := OrElse(Strtol(w), -1));
        } else {
          q := FparsePosition(q, c);
        }
      }
    }

    /** Three words are skipped, the fourth is the position. */
    method FparsePosition(p: Pointers, ghost c: Scmd) returns (q: Pointers)
      requires Stage(p, c, |fields|)
      modifies this, line
      ensures Valid() && AllRaw(fields) && Linked(q, ParsePosition(c, old(Rest()), 3), fields)
    {
      var all := SkipWords(p, c, 3);
      if all {
        q := TakePosition(p, c);
      } else {
        q := p;
      }
    }

    method SkipWords(ghost p: Pointers, ghost c: Scmd, n: nat) returns (all: bool)
      requires Stage(p, c, |fields|)
      modifies this, line
      ensures Stage(p, c, |fields|)
      ensures ParsePosition(c, old(Rest()), n) == if all then ParsePosition(c, Rest(), 0) else c
    {
      var k := n;
      while k > 0
        invariant 0 <= k <= n && Stage(p, c, |fields|)
        invariant ParsePosition(c, Rest(), k) == ParsePosition(c, old(Rest()), n)
      {
        PositionStep(c, Rest(), k);
        var z, w := NextWord(p, c);
        if z.None? {
          return false;
        }
        k := k - 1;
      }
      all := true;
    }

    method TakePosition(p: Pointers, ghost c: Scmd) returns (q: Pointers)
      requires Stage(p, c, |fields|)
      modifies this, line
      ensures Valid() && AllRaw(fields) && Linked(q, ParsePosition(c, old(Rest()), 0), fields)
    {
      q := p;
      PositionStep(c, Rest(), 0);
      var z, w := NextWord(p, c);
      if z.Some? { q := q.(pos := OrElse(Strtol(w), 0)); }
    }

    method FparseTemp(p: Pointers, ghost c: Scmd) returns (ok: bool, q: Pointers)
      requires Stage(p, c, 5)
      modifies this, line
      ensures Result(line[..], ok, q, ParseTemp(c, old(Rest())))
    {
      q := p;
      var z, w := NextWord(q, c);
      if z.None? {
        return false, q;
      }
      ok, q := FparseMode(q.(temp := z), c.(temp := Some(w)));
    }

    method FparseMode(p: Pointers, ghost c: Scmd) returns (ok: bool, q: Pointers)
      requires Stage(p, c, 6)
      modifies this, line
      ensures Result(line[..], ok, q, ParseMode(c, old(Rest())))
    {
      q := p;
      var z, w := NextWord(q, c);
      if z.None? {
        return false, q;
      }
      var n := Strtol(w);
      if n.rest != [] {
        return false, q;
      }
      var mode := FixMode(ToUint(ToInt(n.value)));
      ok, q := FparseNotify(q.(mode := mode), c.(mode := mode));
    }

    method FparseNotify(p: Pointers, ghost c: Scmd) returns (ok: bool, q: Pointers)
      requires Stage(p, c, 7)
      modifies this, line
      ensures Result(line[..], ok, q, ParseNotify(c, old(Rest())))
    {
      q := p;
      var z, w := NextWord(q, c);
      if z.None? {
        ok := q.bcmd != 'E';
        if ok { Ulunquote(q, c); }
        return;
      }
      q := q.(notify := z);
      ghost var d := c.(notify := Some(w));
      ok := true;
      if w == "dummy" {
        z, w := NextWord(q, d);
        if z.None? {
          Ulunquote(q, d);
          return;
        }
      }
      ok, q := FparseBytes(q, d);
    }

    method FparseBytes(p: Pointers, ghost c: Scmd) returns (ok: bool, q: Pointers)
      requires |fields| >= 8 && Stage(p, c, |fields|)
      modifies this, line
      ensures Result(line[..], ok, q, ParseBytes(c, old(Rest())))
    {
      q := p;
      var z, w := NextWord(q, c);
      if z.None? {
        ok := q.bcmd != 'E';
        if ok { Ulunquote(q, c); }
        return;
      }
      var bytes := OrElse(Strtol(w), -1);
      ok, q := FparseText(q.(bytes := bytes), c.(bytes := bytes));
    }

    method FparseText(p: Pointers, ghost c: Scmd) returns (ok: bool, q: Pointers)
      requires |fields| >= 9 && Stage(p, c, |fields|)
      modifies this, line
      ensures var rest := old(Rest());
              Result(line[..], ok, q,
                     if rest == [] then if c.bcmd == 'E' then None else Some(Unquote(c))
                     else Some(Unquote(c.(cmd := Some(UpToNewline(rest))))))
    {
      q := p;
      var z;
      ghost var text;
      z, text := LastText(q, c);
      if z.None? {
        ok := q.bcmd != 'E';
        if ok { Ulunquote(q, c); }
        return;
      }
      q := q.(cmd := z);
      Ulunquote(q, c.(cmd := Some(text)));
      ok := true;
    }
  }

  function Unquoted(f: Field): Field { Field(f.p, f.e, UpToNul(Unescape(f.t))) }

  lemma DashSkipped(s: seq<char>, fs: seq<Field>, save: nat)
    requires Laid(s, fs, save) && AllRaw(fs) && fs != [] && fs[|fs| - 1].t != []
    ensures var n := |fs| - 1; var f := fs[n]; var gs := fs[n := Field(f.p + 1, f.e, f.t[1..])];
            Laid(s, gs, save) && AllRaw(gs)
  {
    var n := |fs| - 1;
    var f := fs[n];
    var g := Field(f.p + 1, f.e, f.t[1..]);
    var gs := fs[n := g];
    assert Kept(s, f, save) && Raw(f);
    RawField(s, f);
    assert s[g.p..g.e] == s[f.p..f.e][1..] == g.t;
    forall i | 0 <= i < n ensures Kept(s, gs[i], save) && Raw(gs[i]) && Before(gs[i], g) {
      assert Kept(s, fs[i], save) && Raw(fs[i]) && Before(fs[i], f);
    }
    forall i, j | 0 <= i < j < |gs| ensures Before(gs[i], gs[j]) {
      assert j < n ==> Before(fs[i], fs[j]);
    }
  }

  lemma RawField(s: seq<char>, f: Field)
    requires Owns(s, f) && Raw(f)
    ensures s[f.p..f.e] == f.t
  {
    UpToNulWhole(s[f.p..f.e]);
  }

  lemma FieldUnquoted(s: seq<char>, t: seq<char>, fs: seq<Field>, save: nat, i: nat)
    requires Laid(s, fs, save) && i < |fs| && Kept(s, fs[i], save) && Raw(fs[i]) && Rewrote(s, t, fs[i])
    ensures Laid(t, fs[i := Unquoted(fs[i])], save)
  {
    var f := fs[i];
    NulAfter(t, f.p, f.e, Unescape(f.t));
    LaidChanged(s, t, fs, save, i, UpToNul(Unescape(f.t)));
  }

  lemma NulAfter(t: seq<char>, p: nat, e: nat, u: seq<char>)
    requires p + |u| <= e < |t| && t[p..p + |u|] == u && t[p + |u|] == '\0'
    ensures UpToNul(t[p..e]) == UpToNul(u)
  {
    var s, n := t[p..e], |u|;
    assert s[..n] == t[p..p + n];
    if n < |s| {
      assert s[n] == t[p + n];
      UpToNulStops(s, n);
    } else {
      assert s == s[..n];
    }
  }

  lemma TextIs(s: CString, n: nat)
    requires n <= |s| && (forall k | 0 <= k < n :: s[k] != '\n') && (n < |s| ==> s[n] == '\n')
    ensures UpToNewline(s) == s[..n]
  {
    if n > 0 { TextIs(s[1..], n - 1); }
  }

  lemma TextTaken(s: seq<char>, t: seq<char>, fs: seq<Field>, save: nat, end: nat, q: nat)
    requires Laid(s, fs, save) && AllRaw(fs)
    requires save <= q <= end < |s| && s[end] == '\0' && IsCString(s[save..end]) && save < end
    requires forall k | save <= k < q :: s[k] != '\n'
    requires q < end ==> s[q] == '\n'
    requires t == s[q := '\0']
    ensures var f := Field(save, q, s[save..q]);
            && Laid(t, fs + [f], end) && AllRaw(fs + [f]) && f.t == UpToNewline(s[save..end])
    ensures t[end] == '\0'
  {
    var f := Field(save, q, s[save..q]);
    TextIs(s[save..end], q - save);
    WordIsRaw(s, save, end, save, q);
    assert t[save..q] == s[save..q];
    assert s[save] == s[save..end][0];
    LaidMore(s, t, fs, save, f, end);
  }
}
