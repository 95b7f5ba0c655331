/** The option scanner of lib/getopt.c. Each call returns one option. In PERMUTE mode it moves the
    non-options it has passed behind the options it has processed. */
module Getopt {
  import opened Wrappers

  /** An element of the `struct option` vector; `flagged` when its flag pointer is not NULL. */
  datatype LongOption = LongOption(name: string, hasArg: nat, flagged: bool, val: int)

  /** The fixed arguments of _getopt_internal; `longopts` None is the NULL of plain getopt. `posix`
      tells whether POSIXLY_CORRECT is in the environment. */
  datatype Options = Options(optstring: string, longopts: Option<seq<LongOption>>, longOnly: bool,
                             posix: bool)

  datatype Order = RequireOrder | Permute | ReturnInOrder

  /** How options that follow non-options are dealt with. */
  function Ordering(o: Options): Order {
    if CharAt(o.optstring, 0, '-') then ReturnInOrder
    else if CharAt(o.optstring, 0, '+') || o.posix then RequireOrder
    else Permute
  }

  predicate HasModeChar(o: Options) { CharAt(o.optstring, 0, '-') || CharAt(o.optstring, 0, '+') }

  /** What a call decodes with: only the first one steps over the character that chooses the mode. */
  function Given(o: Options, initial: bool): Options {
    if initial && HasModeChar(o) then o.(optstring := o.optstring[1..]) else o
  }

  /** What one call returns: the code, optarg, and the value for *longind. */
  datatype Event = Event(code: int, arg: Option<string>, longind: Option<nat>)

  const QUESTION: int := '?' as int

  // ---------- decoding one option ----------

  /** The text before the first '='. */
  function Typed(s: string): (r: string)
    ensures |r| <= |s|
  {
    if s == "" || s[0] == '=' then "" else [s[0]] + Typed(s[1..])
  }

  lemma {:induction false} TypedIs(s: string)
    ensures Typed(s) <= s && '=' !in Typed(s) && (|Typed(s)| < |s| ==> s[|Typed(s)|] == '=')
  {
    if s != "" && s[0] != '=' { TypedIs(s[1..]); }
  }

  datatype Match = NoMatch | Ambiguous | Match(index: nat)

  predicate IsExact(longopts: seq<LongOption>, typed: string, i: nat) {
    i < |longopts| && longopts[i].name == typed
  }

  predicate IsPrefix(longopts: seq<LongOption>, typed: string, i: nat) {
    i < |longopts| && typed <= longopts[i].name
  }

  /** The documented rule: the first exact match, or else the only option abbreviated so. */
  ghost predicate Finds(longopts: seq<LongOption>, typed: string, m: Match) {
    if exists i :: IsExact(longopts, typed, i) then
      m.Match? && IsExact(longopts, typed, m.index)
      && forall i | 0 <= i < m.index :: !IsExact(longopts, typed, i)
    else match m
      case NoMatch => forall i :: !IsPrefix(longopts, typed, i)
      case Ambiguous => exists i, j :: i != j && IsPrefix(longopts, typed, i) && IsPrefix(longopts, typed, j)
      case Match(k) => IsPrefix(longopts, typed, k) && forall i :: IsPrefix(longopts, typed, i) ==> i == k
  }

  function FindFrom(longopts: seq<LongOption>, typed: string, i: nat, found: Match): (m: Match)
    requires i <= |longopts| && (found.Match? ==> found.index < |longopts|)
    ensures m.Match? ==> m.index < |longopts|
    decreases |longopts| - i
  {
    if i == |longopts| then found
    else if longopts[i].name == typed then Match(i)
    else if typed <= longopts[i].name then
      FindFrom(longopts, typed, i + 1, if found == NoMatch then Match(i) else Ambiguous)
    else FindFrom(longopts, typed, i + 1, found)
  }

  function Find(longopts: seq<LongOption>, typed: string): (m: Match)
    ensures m.Match? ==> m.index < |longopts|
  {
    FindFrom(longopts, typed, 0, NoMatch)
  }

  lemma FindObeysRule(longopts: seq<LongOption>, typed: string)
    ensures Finds(longopts, typed, Find(longopts, typed))
  {
    FindFromObeysRule(longopts, typed, 0, NoMatch);
  }

  /** What the loop knows before its i-th round. */
  ghost predicate FoundSoFar(longopts: seq<LongOption>, typed: string, i: nat, found: Match) {
    && (forall j | 0 <= j < i :: !IsExact(longopts, typed, j))
    && match found
       case NoMatch => forall j | 0 <= j < i :: !IsPrefix(longopts, typed, j)
       case Ambiguous => exists j, k :: 0 <= j < k < i && IsPrefix(longopts, typed, j) && IsPrefix(longopts, typed, k)
       case Match(k) => k < i && IsPrefix(longopts, typed, k)
                        && forall j | 0 <= j < i :: IsPrefix(longopts, typed, j) ==> j == k
  }

  lemma {:induction false} FindFromObeysRule(longopts: seq<LongOption>, typed: string, i: nat, found: Match)
    requires i <= |longopts| && FoundSoFar(longopts, typed, i, found)
    ensures Finds(longopts, typed, FindFrom(longopts, typed, i, found))
    decreases |longopts| - i
  {
    if i == |longopts| {
    } else if longopts[i].name == typed {
      assert IsExact(longopts, typed, i);
    } else if typed <= longopts[i].name {
      assert IsPrefix(longopts, typed, i);
      FindFromObeysRule(longopts, typed, i + 1, if found == NoMatch then Match(i) else Ambiguous);
    } else {
      FindFromObeysRule(longopts, typed, i + 1, found);
    }
  }

  /** The event of a call, what is left of the element, and how far optind moves. */
  datatype Step = Step(event: Event, rest: string, used: nat)

  const ERROR := Event(QUESTION, None, None)

  function IndexOf(s: string, c: char): (i: nat)
    ensures i <= |s|
  {
    if s == "" || s[0] == c then 0 else 1 + IndexOf(s[1..], c)
  }

  lemma {:induction false} IndexOfIs(s: string, c: char)
    ensures c !in s[..IndexOf(s, c)] && (IndexOf(s, c) < |s| ==> s[IndexOf(s, c)] == c)
  {
    if s != "" && s[0] != c { IndexOfIs(s[1..], c); }
  }

  predicate CharAt(s: string, i: nat, c: char) { i < |s| && s[i] == c }

  function DecodeShort(o: Options, follow: Option<string>, nextchar: string): Step
    requires nextchar != ""
  {
    var c, rest := nextchar[0], nextchar[1..];
    var t := IndexOf(o.optstring, c);
    var plain := if rest == "" then 1 else 0;
    if t == |o.optstring| || c == ':' then Step(ERROR, rest, plain)
    else if !CharAt(o.optstring, t + 1, ':') then Step(Event(c as int, None, None), rest, plain)
    else if rest != "" then Step(Event(c as int, Some(rest), None), "", 1)
    else if CharAt(o.optstring, t + 2, ':') then Step(Event(c as int, None, None), "", 1)
    else if follow == None then Step(ERROR, "", 1)
    else Step(Event(c as int, follow, None), "", 2)
  }

  function DecodeLong(p: LongOption, i: nat, follow: Option<string>, typed: string, nextchar: string): Step
    requires |typed| <= |nextchar|
  {
    var code := if p.flagged then 0 else p.val;
    if |typed| < |nextchar| then
      if p.hasArg != 0 then Step(Event(code, Some(nextchar[|typed| + 1..]), Some(i)), "", 1)
      else Step(ERROR, "", 1)
    else if p.hasArg == 1 then
      if follow == None then Step(ERROR, "", 1) else Step(Event(code, follow, Some(i)), "", 2)
    else Step(Event(code, None, Some(i)), "", 1)
  }

  predicate TriesLong(o: Options, elem: string) {
    o.longopts.Some? && (CharAt(elem, 1, '-') || o.longOnly)
  }

  function DecodeFound(o: Options, elem: string, follow: Option<string>, nextchar: string, m: Match): Step
    requires nextchar != "" && TriesLong(o, elem)
    requires m.Match? ==> m.index < |o.longopts.value|
  {
    match m
    case Ambiguous => Step(ERROR, "", 1)
    case Match(i) => DecodeLong(o.longopts.value[i], i, follow, Typed(nextchar), nextchar)
    case NoMatch =>
      if !o.longOnly || CharAt(elem, 1, '-') || nextchar[0] !in o.optstring
      then Step(ERROR, "", 1)
      else DecodeShort(o, follow, nextchar)
  }

  function Decode(o: Options, elem: string, follow: Option<string>, nextchar: string): (s: Step)
    requires nextchar != ""
    ensures s.used <= 2 && (s.used == 2 ==> follow.Some?)
    ensures s.used == 0 <==> s.rest != ""
    ensures s.used == 0 ==> |s.rest| < |nextchar|
  {
    if TriesLong(o, elem)
    then DecodeFound(o, elem, follow, nextchar, Find(o.longopts.value, Typed(nextchar)))
    else DecodeShort(o, follow, nextchar)
  }

  /** Whether the option string gives the option at i an argument: not, always, or optionally. */
  function Colons(s: string, i: nat): nat {
    if !CharAt(s, i + 1, ':') then 0 else if !CharAt(s, i + 2, ':') then 1 else 2
  }

  /** How the option string treats a character: None if it is no option. */
  function Treatment(s: string, c: char): Option<nat> {
    if c in s then Some(Colons(s, IndexOf(s, c))) else None
  }

  /** Two treatments have the same effect on this element. */
  predicate SameEffect(a: Option<nat>, b: Option<nat>, last: bool, follow: Option<string>) {
    || a == b
    || (last && follow == None && {a, b} == {None, Some(1)})
    || (last && {a, b} == {Some(0), Some(2)})
    || (!last && {a, b} == {Some(1), Some(2)})
  }

  /** The characters are decoded as short options. */
  predicate ComesToShort(o: Options, elem: string, nextchar: string) {
    !TriesLong(o, elem)
    || (Find(o.longopts.value, Typed(nextchar)) == NoMatch && o.longOnly && !CharAt(elem, 1, '-'))
  }

  /** From the second call on the character that chooses the ordering counts as an option itself.
      That makes a difference exactly when it comes up as a short option, unless the colons give it
      the same effect by chance. */
  lemma ModeCharIsOption(o: Options, elem: string, follow: Option<string>, nextchar: string)
    requires HasModeChar(o) && nextchar != ""
    ensures Decode(Given(o, true), elem, follow, nextchar) == Decode(Given(o, false), elem, follow, nextchar)
            <==>
            || nextchar[0] != o.optstring[0]
            || !ComesToShort(o, elem, nextchar)
            || SameEffect(Treatment(o.optstring[1..], nextchar[0]), Some(Colons(o.optstring, 0)),
                          |nextchar| == 1, follow)
  {
    var t, c := o.optstring[1..], nextchar[0];
    assert c in o.optstring <==> c == o.optstring[0] || c in t;
    ShortDiffers(o, follow, nextchar);
  }

  lemma ShortDiffers(o: Options, follow: Option<string>, nextchar: string)
    requires HasModeChar(o) && nextchar != ""
    ensures DecodeShort(Given(o, true), follow, nextchar) == DecodeShort(o, follow, nextchar)
            <==>
            || nextchar[0] != o.optstring[0]
            || SameEffect(Treatment(o.optstring[1..], nextchar[0]), Some(Colons(o.optstring, 0)),
                          |nextchar| == 1, follow)
    ensures nextchar[0] == o.optstring[0] ==> DecodeShort(o, follow, nextchar) != Step(ERROR, "", 1)
                                              || (Colons(o.optstring, 0) == 1 && |nextchar| == 1 && follow == None)
  {
    var t, c := o.optstring[1..], nextchar[0];
    if c != ':' {
      ShortIsTreated(Given(o, true), follow, nextchar);
      ShortIsTreated(o, follow, nextchar);
      if c != o.optstring[0] {
        SkippedAlike(o.optstring, c);
      } else {
        TreatmentsDiffer(Treatment(t, c), Some(Colons(o.optstring, 0)), c, follow, nextchar[1..]);
      }
    }
  }

  /** What a short option comes to. */
  function Treated(a: Option<nat>, c: char, follow: Option<string>, rest: string): Step {
    var plain := if rest == "" then 1 else 0;
    if a == None then Step(ERROR, rest, plain)
    else if a.value == 0 then Step(Event(c as int, None, None), rest, plain)
    else if rest != "" then Step(Event(c as int, Some(rest), None), "", 1)
    else if a.value == 2 then Step(Event(c as int, None, None), "", 1)
    else if follow == None then Step(ERROR, "", 1)
    else Step(Event(c as int, follow, None), "", 2)
  }

  lemma ShortIsTreated(o: Options, follow: Option<string>, nextchar: string)
    requires nextchar != "" && nextchar[0] != ':'
    ensures DecodeShort(o, follow, nextchar)
            == Treated(Treatment(o.optstring, nextchar[0]), nextchar[0], follow, nextchar[1..])
  {
    IndexOfIs(o.optstring, nextchar[0]);
  }

  lemma TreatmentsDiffer(a: Option<nat>, b: Option<nat>, c: char, follow: Option<string>, rest: string)
    requires c as int != QUESTION && (a.Some? ==> a.value <= 2) && (b.Some? ==> b.value <= 2)
    ensures Treated(a, c, follow, rest) == Treated(b, c, follow, rest) <==> SameEffect(a, b, rest == "", follow)
  {
  }

  lemma IndexOfRest(s: string, c: char)
    requires s != ""
    ensures IndexOf(s, c) == if c == s[0] then 0 else 1 + IndexOf(s[1..], c)
    ensures c !in s[1..] ==> IndexOf(s[1..], c) == |s| - 1
  {
    IndexOfIs(s[1..], c);
  }

  /** Stepping over another character makes no difference. */
  lemma SkippedAlike(s: string, c: char)
    requires s != "" && c != s[0]
    ensures Treatment(s, c) == Treatment(s[1..], c)
  {
    IndexOfRest(s, c);
    assert forall k | 0 <= k < |s| - 1 :: s[1..][k] == s[k + 1];
  }

  const DASHES: Options := Options("-a", None, false, false)

  /** After the first call "-" is an option of "-a", as the scan of "-a-" shows. */
  lemma ModeCharIsReturned()
    ensures ScanFrom(DASHES, true, ["prog", "-a-"], 1, "").events
            == [Event('a' as int, None, None), Event('-' as int, None, None)]
    ensures Decode(Given(DASHES, true), "-a-", None, "-").event == ERROR
  {
    var o, a := DASHES, ["prog", "-a-"];
    assert a[1][1..] == "a-" && "a-"[1..] == "-" && "-"[1..] == "";
    assert Given(o, true).optstring == "a";
    assert IndexOf("a", 'a') == 0 && IndexOf("-a", '-') == 0 && IndexOf("a", '-') == 1 + IndexOf("a"[1..], '-');
    assert Decode(Given(o, true), "-a-", None, "a-") == Step(Event('a' as int, None, None), "-", 0);
    assert Decode(Given(o, false), "-a-", None, "-") == Step(Event('-' as int, None, None), "", 1);
    assert ScanFrom(o, false, a, 2, "") == NOTHING;
    assert ScanFrom(o, false, a, 1, "-").events == [Event('-' as int, None, None)];
    assert ScanFrom(o, true, a, 1, "a-").events
        == [Event('a' as int, None, None)] + [Event('-' as int, None, None)];
  }

  // ---------- what the elements mean ----------

  /** An element that starts with '-' and is not just "-". */
  predicate IsOption(elem: string) {
    |elem| >= 2 && elem[0] == '-'
  }

  /** Where the scan of an option element starts: behind "-", or behind "--" of a long option. */
  function FirstChars(o: Options, elem: string): (r: string)
    requires IsOption(elem) && elem != "--"
    ensures r != ""
  {
    if o.longopts.Some? && elem[1] == '-' then elem[2..] else elem[1..]
  }

  /** What a call makes of the element: its event, and how many elements that takes. */
  predicate Means(o: Options, elem: string, follow: Option<string>, e: Event, k: nat) {
    && IsOption(elem) && elem != "--"
    && Decode(o, elem, follow, FirstChars(o, elem)) == Step(e, "", k)
  }

  lemma FindsOne(longopts: seq<LongOption>, typed: string, m: Match)
    requires Finds(longopts, typed, m)
    ensures Find(longopts, typed) == m
  {
    FindObeysRule(longopts, typed);
    FindsSame(longopts, typed, Find(longopts, typed), m);
  }

  lemma FindsSame(longopts: seq<LongOption>, typed: string, f: Match, m: Match)
    requires Finds(longopts, typed, f) && Finds(longopts, typed, m)
    ensures f == m
  {
  }

  /** The dashes in front of a long option. */
  predicate Introduces(o: Options, dashes: string, word: string) {
    && o.longopts.Some?
    && (dashes == "--" || (dashes == "-" && o.longOnly && word != "" && word[0] != '-'))
  }

  lemma {:induction false} TypedWord(word: string, rest: string)
    requires '=' !in word && (rest == "" || rest[0] == '=')
    ensures Typed(word + rest) == word
  {
    if word == "" {
      assert word + rest == rest;
    } else {
      assert (word + rest)[1..] == word[1..] + rest && (word + rest)[0] == word[0];
      TypedWord(word[1..], rest);
    }
  }

  /** The characters behind the dashes are a long option. */
  lemma BeginsLong(o: Options, elem: string, dashes: string, word: string, rest: string)
    requires elem == dashes + (word + rest) && word + rest != "" && Introduces(o, dashes, word)
    requires '=' !in word && (rest == "" || rest[0] == '=')
    ensures IsOption(elem) && elem != "--" && FirstChars(o, elem) == word + rest && TriesLong(o, elem)
    ensures dashes == "--" ==> CharAt(elem, 1, '-')
    ensures Typed(word + rest) == word
  {
    TypedWord(word, rest);
    assert elem[|dashes|..] == word + rest;
    assert elem[|dashes|] == (word + rest)[0];
    if word != "" { assert (word + rest)[0] == word[0]; }
  }

  /** A long option, whose name may be abbreviated, with a value behind "=". */
  lemma LongOptionWithValue(o: Options, elem: string, follow: Option<string>, dashes: string, word: string,
                            v: string, i: nat)
    requires elem == dashes + (word + ("=" + v)) && Introduces(o, dashes, word) && '=' !in word
    requires i < |o.longopts.value| && Finds(o.longopts.value, word, Match(i))
    ensures var p := o.longopts.value[i];
            Means(o, elem, follow,
                  if p.hasArg == 0 then Event('?' as int, None, None)
                  else Event(if p.flagged then 0 else p.val, Some(v), Some(i)), 1)
  {
    var chars := word + ("=" + v);
    BeginsLong(o, elem, dashes, word, "=" + v);
    FindsOne(o.longopts.value, word, Match(i));
    assert chars[|word| + 1..] == v;
    assert Decode(o, elem, follow, chars) == DecodeFound(o, elem, follow, chars, Match(i));
  }

  /** A long option without "=": a value it requires is the next element. */
  lemma LongOptionAlone(o: Options, elem: string, follow: Option<string>, dashes: string, word: string, i: nat)
    requires elem == dashes + word && word != "" && Introduces(o, dashes, word) && '=' !in word
    requires i < |o.longopts.value| && Finds(o.longopts.value, word, Match(i))
    ensures var p := o.longopts.value[i];
            var code := if p.flagged then 0 else p.val;
            if p.hasArg != 1 then Means(o, elem, follow, Event(code, None, Some(i)), 1)
            else if follow.Some? then Means(o, elem, follow, Event(code, follow, Some(i)), 2)
            else Means(o, elem, follow, Event('?' as int, None, None), 1)
  {
    assert word + "" == word;
    BeginsLong(o, elem, dashes, word, "");
    FindsOne(o.longopts.value, word, Match(i));
    assert Decode(o, elem, follow, word) == DecodeFound(o, elem, follow, word, Match(i));
  }

  /** An unknown or ambiguous word behind "--" is an error, whatever follows it. */
  lemma LongOptionUnknown(o: Options, elem: string, follow: Option<string>, word: string, rest: string, m: Match)
    requires elem == "--" + (word + rest) && word + rest != "" && Introduces(o, "--", word)
    requires '=' !in word && (rest == "" || rest[0] == '=')
    requires Finds(o.longopts.value, word, m) && !m.Match?
    ensures Means(o, elem, follow, Event('?' as int, None, None), 1)
  {
    BeginsLong(o, elem, "--", word, rest);
    FindsOne(o.longopts.value, word, m);
    assert Decode(o, elem, follow, word + rest) == DecodeFound(o, elem, follow, word + rest, m);
  }

  /** With long_only a word behind a single dash that is no long option is taken for short ones if its
      first character is one, and otherwise the whole element is an error. */
  lemma LongOnlyWord(o: Options, elem: string, follow: Option<string>, word: string, rest: string)
    requires elem == "-" + (word + rest) && Introduces(o, "-", word)
    requires '=' !in word && (rest == "" || rest[0] == '=')
    requires Finds(o.longopts.value, word, NoMatch)
    ensures IsOption(elem) && elem != "--" && FirstChars(o, elem) == word + rest
    ensures Decode(o, elem, follow, word + rest)
            == if word[0] in o.optstring then DecodeShort(o, follow, word + rest)
               else Step(Event('?' as int, None, None), "", 1)
  {
    BeginsLong(o, elem, "-", word, rest);
    FindsOne(o.longopts.value, word, NoMatch);
    assert elem[1] == (word + rest)[0] == word[0];
    assert Decode(o, elem, follow, word + rest) == DecodeFound(o, elem, follow, word + rest, NoMatch);
  }

  /** The characters behind a single dash are options one by one. */
  predicate IsShort(o: Options, elem: string) {
    o.longopts == None || (!o.longOnly && !CharAt(elem, 1, '-'))
  }

  lemma ShortOptionsBegin(o: Options, elem: string, chars: string)
    requires elem == "-" + chars && chars != "" && elem != "--" && IsShort(o, elem)
    ensures IsOption(elem) && FirstChars(o, elem) == chars
  {
    assert elem[1..] == chars;
  }

  lemma {:induction false} IndexIs(before: string, c: char, after: string)
    requires c !in before
    ensures IndexOf(before + [c] + after, c) == |before|
  {
    var s := before + [c] + after;
    if before != "" {
      assert s[1..] == before[1..] + [c] + after;
      IndexIs(before[1..], c, after);
    }
  }

  lemma ColonsBehind(s: string, before: string, c: char, after: string)
    requires s == before + [c] + after && c !in before
    ensures Treatment(s, c) == Some(if !(":" <= after) then 0 else if !("::" <= after) then 1 else 2)
  {
    IndexIs(before, c, after);
    assert forall k | 0 <= k < |after| :: s[|before| + 1 + k] == after[k];
    assert s[|before|] == c;
  }

  /** A short option: alone, with an argument in the same element, with one in the next element, or
      without the argument it may or must have. */
  lemma ShortOption(o: Options, elem: string, follow: Option<string>, c: char, rest: string,
                    before: string, after: string)
    requires IsShort(o, elem) && c != ':' && o.optstring == before + [c] + after && c !in before
    ensures Decode(o, elem, follow, [c] + rest)
            == if !(":" <= after) then
                 Step(Event(c as int, None, None), rest, if rest == "" then 1 else 0)
               else if rest != "" then Step(Event(c as int, Some(rest), None), "", 1)
               else if "::" <= after then Step(Event(c as int, None, None), "", 1)
               else if follow.Some? then Step(Event(c as int, follow, None), "", 2)
               else Step(Event('?' as int, None, None), "", 1)
  {
    var chars := [c] + rest;
    assert chars[0] == c && chars[1..] == rest;
    ColonsBehind(o.optstring, before, c, after);
    ShortIsTreated(o, follow, chars);
  }

  lemma ShortOptionUnknown(o: Options, elem: string, follow: Option<string>, c: char, rest: string)
    requires IsShort(o, elem) && (c == ':' || c !in o.optstring)
    ensures Decode(o, elem, follow, [c] + rest)
            == Step(Event('?' as int, None, None), rest, if rest == "" then 1 else 0)
  {
    var chars := [c] + rest;
    assert chars[0] == c && chars[1..] == rest;
    if c != ':' { ShortIsTreated(o, follow, chars); }
  }

  // ---------- the non-permuting scan ----------

  /** The events of a scan, and its elements sorted into options (with their arguments and a "--")
      and non-options. */
  datatype Scan = Scan(events: seq<Event>, options: seq<string>, others: seq<string>) {
    function Then(next: Scan): Scan {
      Scan(events + next.events, options + next.options, others + next.others)
    }
  }

  const NOTHING := Scan([], [], [])

  lemma ThenAssociates(a: Scan, b: Scan, c: Scan)
    ensures a.Then(b).Then(c) == a.Then(b.Then(c))
  {
  }

  function Follow(a: seq<string>, i: nat): Option<string> {
    if i + 1 < |a| then Some(a[i + 1]) else None
  }

  /** The scan of `a` from its i-th element on, `nextchar` of which is left; initial: in the first call. */
  function ScanFrom(o: Options, initial: bool, a: seq<string>, i: nat, nextchar: string): Scan
    requires i <= |a| && (nextchar != "" ==> i < |a|)
    decreases |a| - i, nextchar == "", |nextchar|
  {
    if nextchar != "" then
      var s := Decode(Given(o, initial), a[i], Follow(a, i), nextchar);
      Scan([s.event], a[i..i + s.used], []).Then(ScanFrom(o, false, a, i + s.used, s.rest))
    else if i == |a| then NOTHING
    else if a[i] == "--" then Scan([], ["--"], a[i + 1..])
    else if IsOption(a[i]) then ScanFrom(o, initial, a, i, FirstChars(o, a[i]))
    else match Ordering(o)
      case Permute => Scan([], [], [a[i]]).Then(ScanFrom(o, initial, a, i + 1, ""))
      case RequireOrder => Scan([], [], a[i..])
      case ReturnInOrder => Scan([Operand(a[i])], [a[i]], []).Then(ScanFrom(o, false, a, i + 1, ""))
  }

  /** A non-option, described as the argument of an option with character code 1. */
  function Operand(elem: string): Event { Event(1, Some(elem), None) }

  /** A call at an element that means this returns it, and the next call begins behind what it takes. */
  lemma ElementReturns(o: Options, initial: bool, a: seq<string>, at: nat, e: Event, k: nat)
    requires at < |a| && Means(Given(o, initial), a[at], Follow(a, at), e, k)
    ensures at + k <= |a|
    ensures ScanFrom(o, initial, a, at, "")
            == Scan([e], a[at..at + k], []).Then(ScanFrom(o, false, a, at + k, ""))
  {
  }

  /** What happens at a non-option: "-" in front of the option string asks for it to be returned, "+" or
      POSIXLY_CORRECT for the scan to stop there, and otherwise it goes behind the options. */
  lemma NonOption(o: Options, initial: bool, a: seq<string>, at: nat)
    requires at < |a| && (a[at] == "" || a[at][0] != '-' || a[at] == "-")
    ensures var inFront := if o.optstring == "" then ' ' else o.optstring[0];
            ScanFrom(o, initial, a, at, "")
            == if inFront == '-' then
                 Scan([Event(1, Some(a[at]), None)], [a[at]], []).Then(ScanFrom(o, false, a, at + 1, ""))
               else if inFront == '+' || o.posix then Scan([], [], a[at..])
               else Scan([], [], [a[at]]).Then(ScanFrom(o, initial, a, at + 1, ""))
  {
  }

  /** "--" ends the options. */
  lemma DashesEnd(o: Options, initial: bool, a: seq<string>, at: nat)
    requires at < |a| && a[at] == "--"
    ensures ScanFrom(o, initial, a, at, "") == Scan([], ["--"], a[at + 1..])
  {
  }

  /** The whole scan is its past part and the rest. */
  ghost predicate Comes(o: Options, orig: seq<string>, past: Scan, rest: Scan) {
    |orig| >= 1 && ScanFrom(o, true, orig, 1, "") == past.Then(rest)
  }

  /** What is left of the scan after its past part: elements from the p-th on, and nextchar. */
  ghost predicate Left(o: Options, orig: seq<string>, past: Scan, initial: bool, p: nat, nextchar: string) {
    && p <= |orig| && (nextchar != "" ==> p < |orig|)
    && forall rest {:trigger Comes(o, orig, past, rest)} | rest == ScanFrom(o, initial, orig, p, nextchar) ::
         Comes(o, orig, past, rest)
  }

  lemma LeftComes(o: Options, orig: seq<string>, past: Scan, initial: bool, p: nat, nextchar: string)
    requires Left(o, orig, past, initial, p, nextchar)
    ensures Comes(o, orig, past, ScanFrom(o, initial, orig, p, nextchar))
  {
  }

  lemma ComesThen(o: Options, orig: seq<string>, past: Scan, one: Scan, rest: Scan)
    requires Comes(o, orig, past, one.Then(rest))
    ensures Comes(o, orig, past.Then(one), rest)
  {
    ThenAssociates(past, one, rest);
  }

  /** The elements that a mask selects, in order. */
  function Pick(a: seq<string>, mask: seq<bool>, which: bool): seq<string>
    requires |mask| == |a|
  {
    if a == [] then []
    else (if mask[0] == which then [a[0]] else []) + Pick(a[1..], mask[1..], which)
  }

  lemma {:induction false} PickSplit(a: seq<string>, b: seq<string>, m: seq<bool>, n: seq<bool>, which: bool)
    requires |m| == |a| && |n| == |b|
    ensures Pick(a + b, m + n, which) == Pick(a, m, which) + Pick(b, n, which)
  {
    if a == [] {
      assert a + b == b && m + n == n;
    } else {
      assert (a + b)[1..] == a[1..] + b && (m + n)[1..] == m[1..] + n;
      var first := if m[0] == which then [a[0]] else [];
      assert Pick(a + b, m + n, which) == first + Pick(a[1..] + b, m[1..] + n, which);
      PickSplit(a[1..], b, m[1..], n, which);
    }
  }

  lemma {:induction false} PickAll(a: seq<string>, which: bool)
    ensures Pick(a, seq(|a|, _ => which), which) == a
    ensures Pick(a, seq(|a|, _ => which), !which) == []
  {
    if a != [] {
      assert seq(|a|, _ => which)[1..] == seq(|a[1..]|, _ => which);
      PickAll(a[1..], which);
    }
  }

  lemma {:induction false} PickCounts(a: seq<string>, mask: seq<bool>)
    requires |mask| == |a|
    ensures multiset(Pick(a, mask, true)) + multiset(Pick(a, mask, false)) == multiset(a)
  {
    if a != [] {
      assert a == [a[0]] + a[1..];
      PickCounts(a[1..], mask[1..]);
    }
  }

  /** A scan loses no element, invents none and keeps the order within both sorts. */
  lemma {:induction false} ScanSorts(o: Options, initial: bool, a: seq<string>, i: nat, nextchar: string)
    returns (mask: seq<bool>)
    requires i <= |a| && (nextchar != "" ==> i < |a|)
    ensures |mask| == |a| - i
    ensures ScanFrom(o, initial, a, i, nextchar).options == Pick(a[i..], mask, true)
    ensures ScanFrom(o, initial, a, i, nextchar).others == Pick(a[i..], mask, false)
    decreases |a| - i, nextchar == "", |nextchar| + 1
  {
    mask := [];
    if nextchar != "" {
      var s := Decode(Given(o, initial), a[i], Follow(a, i), nextchar);
      var rest := ScanSorts(o, false, a, i + s.used, s.rest);
      mask := OptionSorts(o, initial, a, i, nextchar, s, rest);
    } else if i == |a| {
    } else if a[i] == "--" {
      mask := DashesSort(a, i);
    } else if IsOption(a[i]) {
      mask := ScanSorts(o, initial, a, i, FirstChars(o, a[i]));
    } else {
      mask := OtherSorts(o, initial, a, i);
    }
  }

  lemma {:induction false} OptionSorts(o: Options, initial: bool, a: seq<string>, i: nat, nextchar: string,
                                       s: Step, rest: seq<bool>) returns (mask: seq<bool>)
    requires i < |a| && nextchar != "" && s == Decode(Given(o, initial), a[i], Follow(a, i), nextchar)
    requires |rest| == |a| - i - s.used
    requires ScanFrom(o, false, a, i + s.used, s.rest).options == Pick(a[i + s.used..], rest, true)
    requires ScanFrom(o, false, a, i + s.used, s.rest).others == Pick(a[i + s.used..], rest, false)
    ensures |mask| == |a| - i
    ensures ScanFrom(o, initial, a, i, nextchar).options == Pick(a[i..], mask, true)
    ensures ScanFrom(o, initial, a, i, nextchar).others == Pick(a[i..], mask, false)
  {
    mask := StepSorts(a, i, s.used, s.event, ScanFrom(o, false, a, i + s.used, s.rest), rest);
  }

  lemma StepSorts(a: seq<string>, i: nat, k: nat, e: Event, next: Scan, rest: seq<bool>) returns (mask: seq<bool>)
    requires i + k <= |a| && |rest| == |a| - i - k
    requires next.options == Pick(a[i + k..], rest, true) && next.others == Pick(a[i + k..], rest, false)
    ensures |mask| == |a| - i
    ensures var whole := Scan([e], a[i..i + k], []).Then(next);
            whole.options == Pick(a[i..], mask, true) && whole.others == Pick(a[i..], mask, false)
  {
    mask := PickMore(a, i, k, true, rest);
  }

  lemma DashesSort(a: seq<string>, i: nat) returns (mask: seq<bool>)
    requires i < |a| && a[i] == "--"
    ensures |mask| == |a| - i && Pick(a[i..], mask, true) == ["--"] && Pick(a[i..], mask, false) == a[i + 1..]
  {
    PickAll(a[i + 1..], false);
    mask := PickMore(a, i, 1, true, seq(|a[i + 1..]|, _ => false));
    assert a[i..i + 1] == ["--"];
  }

  lemma {:induction false} OtherSorts(o: Options, initial: bool, a: seq<string>, i: nat) returns (mask: seq<bool>)
    requires i < |a| && !IsOption(a[i])
    ensures |mask| == |a| - i
    ensures ScanFrom(o, initial, a, i, "").options == Pick(a[i..], mask, true)
    ensures ScanFrom(o, initial, a, i, "").others == Pick(a[i..], mask, false)
    decreases |a| - i, true, 0
  {
    assert a[i..i + 1] == [a[i]];
    match Ordering(o)
    case Permute =>
      var rest := ScanSorts(o, initial, a, i + 1, "");
      mask := PickMore(a, i, 1, false, rest);
    case RequireOrder =>
      mask := seq(|a[i..]|, _ => false);
      PickAll(a[i..], false);
    case ReturnInOrder =>
      var rest := ScanSorts(o, false, a, i + 1, "");
      mask := PickMore(a, i, 1, true, rest);
  }

  /** The next k elements are all options or all others. */
  lemma PickMore(a: seq<string>, i: nat, k: nat, which: bool, rest: seq<bool>) returns (mask: seq<bool>)
    requires i + k <= |a| && |rest| == |a| - i - k
    ensures |mask| == |a| - i
    ensures Pick(a[i..], mask, which) == a[i..i + k] + Pick(a[i + k..], rest, which)
    ensures Pick(a[i..], mask, !which) == Pick(a[i + k..], rest, !which)
  {
    var all := seq(k, _ => which);
    mask := all + rest;
    assert a[i..] == a[i..i + k] + a[i + k..];
    PickAll(a[i..i + k], which);
    assert all == seq(|a[i..i + k]|, _ => which);
    PickSplit(a[i..i + k], a[i + k..], all, rest, which);
    PickSplit(a[i..i + k], a[i + k..], all, rest, !which);
  }

  /** Sorting only: a scan permutes. */
  lemma ScanPermutes(o: Options, initial: bool, a: seq<string>, i: nat)
    requires i <= |a|
    ensures var s := ScanFrom(o, initial, a, i, ""); multiset(s.options + s.others) == multiset(a[i..])
  {
    var mask := ScanSorts(o, initial, a, i, "");
    PickCounts(a[i..], mask);
  }

  // ---------- the permuting scanner ----------

  /** The state between calls: options, then the non-options skipped so far, then the options
      processed since, then the part of the argument vector that was not reached yet. */
  ghost predicate Sorted(a: seq<string>, orig: seq<string>, f: nat, l: nat, p: nat, past: Scan) {
    && 1 <= f <= l <= p <= |a| == |orig|
    && a[0] == orig[0] && a[p..] == orig[p..]
    && past.options == a[1..f] + a[l..p] && past.others == a[f..l]
  }

  /** Every option so far in front of every non-option so far. */
  ghost predicate Tidy(a: seq<string>, orig: seq<string>, f: nat, p: nat, past: Scan) {
    && 1 <= f <= p <= |a| == |orig|
    && a[0] == orig[0] && a[p..] == orig[p..]
    && past.options == a[1..f] && past.others == a[f..p]
  }

  function Exchanged(a: seq<string>, f: nat, l: nat, p: nat): seq<string>
    requires f <= l <= p <= |a|
  {
    a[..f] + a[l..p] + a[f..l] + a[p..]
  }

  lemma ExchangeTidies(a: seq<string>, orig: seq<string>, f: nat, l: nat, p: nat, past: Scan)
    requires Sorted(a, orig, f, l, p, past)
    ensures Tidy(Exchanged(a, f, l, p), orig, f + (p - l), p, past)
  {
    var b := Exchanged(a, f, l, p);
    assert b[1..f + (p - l)] == a[1..f] + a[l..p];
    assert b[f + (p - l)..p] == a[f..l];
    assert b[p..] == a[p..];
  }

  lemma SortedIsTidy(a: seq<string>, orig: seq<string>, f: nat, l: nat, p: nat, past: Scan)
    requires Sorted(a, orig, f, l, p, past)
    ensures l == p ==> Tidy(a, orig, f, p, past)
    ensures f == l ==> Tidy(a, orig, p, p, past)
  {
    assert f == l ==> a[1..f] + a[l..p] == a[1..p];
    assert l == p ==> a[1..f] + a[l..p] == a[1..f];
  }

  lemma TidyNow(a: seq<string>, orig: seq<string>, f: nat, l: nat, p: nat, past: Scan)
    requires Sorted(a, orig, f, l, p, past) && (l == p || f == l)
    ensures Tidy(a, orig, if f == l then p else f, p, past)
  {
    SortedIsTidy(a, orig, f, l, p, past);
  }

  lemma TidyIsSorted(a: seq<string>, orig: seq<string>, f: nat, p: nat, past: Scan)
    requires Tidy(a, orig, f, p, past)
    ensures Sorted(a, orig, f, p, p, past)
  {
    assert a[1..f] + a[p..p] == a[1..f];
  }

  lemma SameAt(a: seq<string>, orig: seq<string>, p: nat)
    requires p <= |a| == |orig| && a[p..] == orig[p..]
    ensures p < |a| ==> a[p] == orig[p] && a[p + 1..] == orig[p + 1..]
    ensures Follow(a, p) == Follow(orig, p)
  {
    if p < |a| {
      assert a[p] == a[p..][0] == orig[p..][0];
      assert a[p + 1..] == a[p..][1..] == orig[p..][1..] == orig[p + 1..];
      if p + 1 < |a| { assert a[p + 1] == a[p..][1] == orig[p..][1]; }
    }
  }

  lemma OneLonger(a: seq<string>, f: nat, p: nat)
    requires f <= p < |a|
    ensures a[f..p] + [a[p]] == a[f..p + 1]
  {
  }

  /** A non-option is passed over. */
  lemma OtherPassed(o: Options, initial: bool, a: seq<string>, orig: seq<string>, f: nat, p: nat, past: Scan)
    requires Tidy(a, orig, f, p, past) && p < |a| && !IsOption(a[p]) && Ordering(o) == Permute
    requires Left(o, orig, past, initial, p, "")
    ensures var more := past.Then(Scan([], [], [a[p]]));
            && Tidy(a, orig, f, p + 1, more) && more.events == past.events
            && Left(o, orig, more, initial, p + 1, "")
  {
    LeftComes(o, orig, past, initial, p, "");
    SameAt(a, orig, p);
    OneLonger(a, f, p);
    assert past.options + [] == past.options && past.events + [] == past.events;
    ComesThen(o, orig, past, Scan([], [], [a[p]]), ScanFrom(o, initial, orig, p + 1, ""));
  }

  /** A "--" moves in front of the skipped non-options, and all that follows it is one of them. */
  lemma DashesPassed(o: Options, initial: bool, a: seq<string>, orig: seq<string>, f: nat, p: nat, past: Scan)
    requires Tidy(a, orig, f, p, past) && p < |a| && a[p] == "--"
    requires Left(o, orig, past, initial, p, "")
    ensures var more := past.Then(Scan([], ["--"], orig[p + 1..]));
            && Sorted(Exchanged(a, f, p, p + 1), orig, f + 1, |a|, |a|, more) && more.events == past.events
            && Comes(o, orig, more, NOTHING)
  {
    LeftComes(o, orig, past, initial, p, "");
    SameAt(a, orig, p);
    DashesMoved(a, f, p);
    assert past.events + [] == past.events;
    var one := Scan([], ["--"], orig[p + 1..]);
    assert one.Then(NOTHING) == one;
    ComesThen(o, orig, past, one, NOTHING);
  }

  lemma DashesMoved(a: seq<string>, f: nat, p: nat)
    requires 1 <= f <= p < |a|
    ensures var b := Exchanged(a, f, p, p + 1);
            && |b| == |a| && b[0] == a[0] && b[|a|..] == []
            && b[1..f + 1] + b[|a|..|a|] == a[1..f] + [a[p]] && b[f + 1..|a|] == a[f..p] + a[p + 1..]
  {
    var b := Exchanged(a, f, p, p + 1);
    assert |b| == |a| && b[0] == a[..f][0] == a[0] && b[|a|..|a|] == [];
    assert b[1..f + 1] == a[1..f] + [a[p]];
    assert b[f + 1..|a|] == a[f..p] + a[p + 1..];
  }

  /** k more elements go with the options. */
  lemma SortedTakes(a: seq<string>, orig: seq<string>, f: nat, l: nat, p: nat, past: Scan, k: nat, e: Event)
    requires Sorted(a, orig, f, l, p, past) && p + k <= |a|
    ensures Sorted(a, orig, f, l, p + k, past.Then(Scan([e], orig[p..p + k], [])))
  {
    Stretch(orig, p, k);
    Stretch(a, p, k);
    assert a[p..] == orig[p..];
    Longer(a, l, p, p + k);
    Regroup(a[1..f], a[l..p], a[p..p + k]);
    assert past.others + [] == past.others;
  }

  lemma Stretch(a: seq<string>, p: nat, k: nat)
    requires p + k <= |a|
    ensures a[p..p + k] == a[p..][..k] && a[p + k..] == a[p..][k..]
  {
  }

  lemma Longer(a: seq<string>, l: nat, p: nat, q: nat)
    requires l <= p <= q <= |a|
    ensures a[l..p] + a[p..q] == a[l..q]
  {
  }

  lemma Regroup(a: seq<string>, b: seq<string>, c: seq<string>)
    ensures (a + b) + c == a + (b + c)
  {
  }

  /** One option is taken, with the elements it uses. */
  lemma OptionTaken(o: Options, initial: bool, a: seq<string>, orig: seq<string>, f: nat, l: nat, p: nat,
                    past: Scan, nextchar: string)
    requires Sorted(a, orig, f, l, p, past) && p < |a| && nextchar != ""
    requires Left(o, orig, past, initial, p, nextchar)
    ensures var s := Decode(Given(o, initial), orig[p], Follow(orig, p), nextchar);
            && p + s.used <= |a| && (s.rest != "" ==> p + s.used < |a|)
            && var more := past.Then(Scan([s.event], orig[p..p + s.used], []));
               && Sorted(a, orig, f, l, p + s.used, more) && more.events == past.events + [s.event]
               && Left(o, orig, more, false, p + s.used, s.rest)
  {
    LeftComes(o, orig, past, initial, p, nextchar);
    var s := Decode(Given(o, initial), orig[p], Follow(orig, p), nextchar);
    SortedTakes(a, orig, f, l, p, past, s.used, s.event);
    ComesThen(o, orig, past, Scan([s.event], orig[p..p + s.used], []), ScanFrom(o, false, orig, p + s.used, s.rest));
  }

  /** A non-option that is returned in order goes with the options. */
  lemma OperandTaken(o: Options, initial: bool, a: seq<string>, orig: seq<string>, f: nat, l: nat, p: nat, past: Scan)
    requires Sorted(a, orig, f, l, p, past) && p < |a| && !IsOption(a[p]) && Ordering(o) == ReturnInOrder
    requires Left(o, orig, past, initial, p, "")
    ensures var more := past.Then(Scan([Operand(a[p])], [a[p]], []));
            && Sorted(a, orig, f, l, p + 1, more) && more.events == past.events + [Operand(a[p])]
            && Left(o, orig, more, false, p + 1, "")
  {
    LeftComes(o, orig, past, initial, p, "");
    SameAt(a, orig, p);
    SortedTakes(a, orig, f, l, p, past, 1, Operand(a[p]));
    assert orig[p..p + 1] == [a[p]];
    ComesThen(o, orig, past, Scan([Operand(a[p])], [a[p]], []), ScanFrom(o, false, orig, p + 1, ""));
  }

  /** What the scan ends with, at EOF. */
  ghost predicate Ends(o: Options, orig: seq<string>, a: seq<string>, p: nat, events: seq<Event>) {
    && |orig| >= 1
    && var whole := ScanFrom(o, true, orig, 1, "");
       a == [orig[0]] + whole.options + whole.others && p == 1 + |whole.options| && events == whole.events
  }

  lemma ScanEnds(o: Options, a: seq<string>, orig: seq<string>, f: nat, l: nat, p: nat, past: Scan)
    requires Sorted(a, orig, f, l, p, past) && p == |a| && (l == p || f == l)
    requires Comes(o, orig, past, NOTHING)
    ensures Ends(o, orig, a, if f != l then f else p, past.events)
  {
    var q := if f != l then f else p;
    assert past.Then(NOTHING) == past;
    SortedIsTidy(a, orig, f, l, p, past);
    InTwo(a, q);
    assert a[q..] == a[q..p];
  }

  lemma ScanStops(o: Options, initial: bool, a: seq<string>, orig: seq<string>, f: nat, p: nat, past: Scan)
    requires Sorted(a, orig, f, f, p, past) && p < |a| && !IsOption(a[p]) && Ordering(o) == RequireOrder
    requires Left(o, orig, past, initial, p, "")
    ensures Ends(o, orig, a, p, past.events)
  {
    LeftComes(o, orig, past, initial, p, "");
    SameAt(a, orig, p);
    assert ScanFrom(o, initial, orig, p, "") == Scan([], [], orig[p..]);
    SortedIsTidy(a, orig, f, f, p, past);
    InTwo(a, p);
    assert past.Then(Scan([], [], orig[p..])) == Scan(past.events, past.options, orig[p..]);
  }

  lemma InTwo(a: seq<string>, p: nat)
    requires 1 <= p <= |a|
    ensures a == [a[0]] + a[1..p] + a[p..]
  {
  }

  /** The first k elements of from have been copied over those of to. */
  ghost predicate Moved(was: seq<string>, now: seq<string>, to: nat, from: nat, k: nat) {
    && to <= from && from + k <= |was| == |now|
    && now[..to + k] == was[..to] + was[from..from + k] && now[to + k..] == was[to + k..]
  }

  lemma NoneMoved(was: seq<string>, to: nat, from: nat)
    requires to <= from <= |was|
    ensures Moved(was, was, to, from, 0)
  {
  }

  lemma OneMoved(was: seq<string>, now: seq<string>, to: nat, from: nat, k: nat)
    requires Moved(was, now, to, from, k) && from + k < |was|
    ensures Moved(was, now[to + k := now[from + k]], to, from, k + 1)
  {
    assert now[from + k] == now[to + k..][from - to] == was[from + k];
    var then_ := now[to + k := now[from + k]];
    assert then_[..to + (k + 1)] == now[..to + k] + [was[from + k]];
    assert was[from..from + (k + 1)] == was[from..from + k] + [was[from + k]];
    assert then_[to + (k + 1)..] == now[to + k..][1..] == was[to + k..][1..] == was[to + (k + 1)..];
  }

  lemma AllMoved(was: seq<string>, now: seq<string>, to: nat, from: nat, n: nat)
    requires Moved(was, now, to, from, n)
    ensures now == was[..to] + was[from..from + n] + was[to + n..]
  {
    assert now == now[..to + n] + now[to + n..];
  }

  lemma ExchangedInTwo(a: seq<string>, b: seq<string>, c: seq<string>, f: nat, l: nat, p: nat)
    requires f <= l <= p <= |a|
    requires b == a[..f] + a[l..p] + a[f + (p - l)..]
    requires c == b[..f + (p - l)] + a[f..l] + b[p..]
    ensures c == Exchanged(a, f, l, p)
  {
    assert b[..f + (p - l)] == a[..f] + a[l..p];
    assert b[p..] == a[p..];
  }

  class Scanner {
    const argv: array<string>
    const o: Options
    // the static variables of getopt.c
    var optind: nat
    var first: nat
    var last: nat
    var nextchar: string
    var ordering: Order
    // the argument vector as it was, and what the calls so far have returned and sorted
    ghost const orig: seq<string>
    ghost var past: Scan

    ghost predicate Valid()
      reads this, argv
    {
      && argv.Length == |orig| >= 1
      && if optind == 0 then argv[..] == orig && past == NOTHING else Going(false)
    }

    /** Within a call, and between calls with initial false; without PERMUTE nothing is ever skipped. */
    ghost predicate Going(initial: bool)
      reads this, argv
    {
      && optind > 0 && ordering == Ordering(o) && (ordering == Permute || first == last)
      && Sorted(argv[..], orig, first, last, optind, past)
      && (nextchar != "" ==> optind < argv.Length)
      && Left(o, orig, past, initial, optind, nextchar)
    }

    constructor (argv: array<string>, o: Options)
      requires argv.Length >= 1
      ensures Valid() && past == NOTHING && optind == 0
      ensures this.argv == argv && this.o == o && orig == argv[..]
    {
      this.argv, this.o, orig := argv, o, argv[..];
      optind, first, last, nextchar, past, ordering := 0, 0, 0, "", NOTHING, Permute;
    }

    /** memcpy of one part of argv over an earlier one, copying forward. */
    method MoveDown(to: nat, from: nat, n: nat)
      requires to <= from && from + n <= argv.Length
      modifies argv
      ensures argv[..] == old(argv[..to]) + old(argv[from..from + n]) + old(argv[to + n..])
    {
      ghost var was := argv[..];
      var k := 0;
      NoneMoved(was, to, from);
      while k < n
        invariant k <= n && Moved(was, argv[..], to, from, k)
      {
        OneMoved(was, argv[..], to, from, k);
        argv[to + k] := argv[from + k];
        k := k + 1;
      }
      AllMoved(was, argv[..], to, from, n);
    }

    /** memcpy of the saved block back into argv. */
    method CopyBack(to: nat, temp: seq<string>)
      requires to + |temp| <= argv.Length
      modifies argv
      ensures argv[..] == old(argv[..to]) + temp + old(argv[to + |temp|..])
    {
      forall k | 0 <= k < |temp| {
        argv[to + k] := temp[k];
      }
    }

    /** Exchange the skipped non-options with the options processed since. */
    method Exchange()
      requires 1 <= first <= last <= optind <= argv.Length
      modifies this`first, this`last, argv
      ensures argv[..] == Exchanged(old(argv[..]), old(first), old(last), optind)
      ensures first == old(first) + (optind - old(last)) && last == optind
    {
      ghost var a := argv[..];
      var temp := argv[first..last];
      MoveDown(first, last, optind - last);
      ghost var b := argv[..];
      CopyBack(first + (optind - last), temp);
      ExchangedInTwo(a, b, argv[..], first, last, optind);
      first := first + (optind - last);
      last := optind;
    }

    method PutOptionsFirst()
      requires 1 <= first <= last <= optind <= argv.Length && Sorted(argv[..], orig, first, last, optind, past)
      modifies this`first, this`last, argv
      ensures Tidy(argv[..], orig, first, optind, past)
    {
      SortedIsTidy(argv[..], orig, first, last, optind, past);
      ExchangeTidies(argv[..], orig, first, last, optind, past);
      if first != last && last != optind {
        Exchange();
      } else if last != optind {
        first := optind;
      }
    }

    /** The front of a call with no characters left: put the options first and pass over the next
        non-options. */
    method SkipOthers(ghost initial: bool)
      requires Going(initial) && ordering == Permute && nextchar == ""
      modifies this`optind, this`first, this`last, this`past, argv
      ensures Going(initial) && last == optind && past.events == old(past.events)
      ensures Tidy(argv[..], orig, first, optind, past)
      ensures optind < argv.Length ==> IsOption(argv[optind])
    {
      PutOptionsFirst();
      while optind < argv.Length && !IsOption(argv[optind])
        invariant optind > 0 && Tidy(argv[..], orig, first, optind, past)
        invariant Left(o, orig, past, initial, optind, "")
        invariant past.events == old(past.events)
        decreases argv.Length - optind
      {
        PassOther(initial);
      }
      last := optind;
      TidyIsSorted(argv[..], orig, first, optind, past);
    }

    method PassOther(ghost initial: bool)
      requires 0 < optind < argv.Length && Tidy(argv[..], orig, first, optind, past) && Ordering(o) == Permute
      requires !IsOption(argv[optind]) && Left(o, orig, past, initial, optind, "")
      modifies this`optind, this`past
      ensures optind == old(optind) + 1 && Tidy(argv[..], orig, first, optind, past)
      ensures Left(o, orig, past, initial, optind, "") && past.events == old(past.events)
    {
      ghost var a := argv[..];
      OtherPassed(o, initial, a, orig, first, optind, past);
      past := past.Then(Scan([], [], [a[optind]]));
      optind := optind + 1;
      assert argv[..] == a;
    }

    /** Pass over the "--", exchange it with the skipped non-options, skip everything else. */
    method MoveDashes()
      requires 1 <= first <= last <= optind < argv.Length && (last == optind || first == last)
      modifies this`optind, this`first, this`last, argv
      ensures var f := if old(first == last) then old(optind) else old(first);
              && argv[..] == Exchanged(old(argv[..]), f, old(optind), old(optind) + 1)
              && first == f + 1 && last == optind == argv.Length
    {
      ghost var a, p := argv[..], optind;
      optind := optind + 1;
      if first != last && last != optind {
        Exchange();
      } else if first == last {
        first := optind;
        assert a == Exchanged(a, p, p, p + 1);
      }
      last := argv.Length;
      optind := argv.Length;
    }

    /** The "--" that ends the options is one itself, and all that follows it is not. */
    method PassDashes(ghost initial: bool)
      requires Going(initial) && optind < argv.Length && argv[optind] == "--" && nextchar == ""
      requires last == optind || first == last
      modifies this`optind, this`first, this`last, this`past, argv
      ensures past.events == old(past.events) && optind == last == argv.Length
      ensures Sorted(argv[..], orig, first, last, optind, past) && Comes(o, orig, past, NOTHING)
    {
      ghost var a, f := argv[..], if first == last then optind else first;
      ghost var one := Scan([], ["--"], orig[optind + 1..]);
      TidyNow(a, orig, first, last, optind, past);
      DashesPassed(o, initial, a, orig, f, optind, past);
      MoveDashes();
      past := past.Then(one);
    }

    /** The loop over the long options. */
    method FindLong(longopts: seq<LongOption>, typed: string) returns (found: Match)
      ensures found == Find(longopts, typed)
    {
      found := NoMatch;
      var i := 0;
      while i < |longopts|
        invariant i <= |longopts| && (found.Match? ==> found.index < |longopts|)
        invariant FindFrom(longopts, typed, i, found) == Find(longopts, typed)
      {
        if typed <= longopts[i].name {
          if |typed| == |longopts[i].name| {
            return Match(i);
          }
          found := if found == NoMatch then Match(i) else Ambiguous;
        }
        i := i + 1;
      }
    }

    /** One call of getopt: the next option, or None for EOF. */
    method Next() returns (e: Option<Event>)
      requires Valid()
      modifies this, argv
      ensures e.Some? ==> Valid() && past.events == old(past.events) + [e.value]
      ensures e == None ==> Ends(o, orig, argv[..], optind, past.events) && past.events == old(past.events)
      ensures optind > 0
    {
      var initial := optind == 0;
      if initial {
        Initialize();
      }
      if nextchar == "" {
        var more;
        more, e := NextElement(initial);
        if !more {
          return;
        }
      }
      var event := TakeOption(initial);
      e := Some(event);
    }

    /** The next element, when no characters are left: an option to be decoded (more), a non-option that
        is returned in order, or the end. */
    method NextElement(initial: bool) returns (more: bool, e: Option<Event>)
      requires Going(initial) && nextchar == ""
      modifies this`optind, this`first, this`last, this`nextchar, this`past, argv
      ensures more ==> Going(initial) && nextchar != "" && past.events == old(past.events)
      ensures !more && e.Some? ==> Going(false) && past.events == old(past.events) + [e.value]
      ensures !more && e.None? ==> Ends(o, orig, argv[..], optind, past.events)
                                   && past.events == old(past.events) && optind > 0
    {
      more, e := false, None;
      if ordering == Permute {
        SkipOthers(initial);
      }
      if optind != argv.Length && argv[optind] == "--" {
        PassDashes(initial);
      }
      if optind == argv.Length {
        EndScan();
        return;
      }
      if !IsOption(argv[optind]) {
        if ordering == RequireOrder {
          ScanStops(o, initial, argv[..], orig, first, optind, past);
          return;
        }
        var event := PassOperand(initial);
        return false, Some(event);
      }
      SameAt(argv[..], orig, optind);
      nextchar := FirstChars(o, argv[optind]);
      more := true;
    }

    /** optind backs over the non-options, so that the caller will digest them. */
    method EndScan()
      requires Sorted(argv[..], orig, first, last, optind, past) && optind == argv.Length
      requires (last == optind || first == last) && Comes(o, orig, past, NOTHING)
      modifies this`optind
      ensures Ends(o, orig, argv[..], optind, past.events) && optind > 0
    {
      ScanEnds(o, argv[..], orig, first, last, optind, past);
      if first != last {
        optind := first;
      }
    }

    method PassOperand(ghost initial: bool) returns (e: Event)
      requires Going(initial) && nextchar == "" && ordering == ReturnInOrder
      requires optind < argv.Length && !IsOption(argv[optind])
      modifies this`optind, this`past
      ensures Going(false) && past.events == old(past.events) + [e]
    {
      ghost var a := argv[..];
      OperandTaken(o, initial, a, orig, first, last, optind, past);
      past := past.Then(Scan([Operand(a[optind])], [a[optind]], []));
      e := Operand(argv[optind]);
      optind := optind + 1;
      assert argv[..] == a;
    }

    method Initialize()
      requires Valid() && optind == 0
      modifies this`optind, this`first, this`last, this`nextchar, this`ordering
      ensures Going(true) && nextchar == ""
    {
      first, last, optind := 1, 1, 1;
      nextchar := "";
      ordering := Ordering(o);
      assert NOTHING.Then(ScanFrom(o, true, orig, 1, "")) == ScanFrom(o, true, orig, 1, "");
    }

    /** What the present characters mean. */
    method Look(initial: bool) returns (step: Step)
      requires Going(initial) && nextchar != ""
      ensures step == Decode(Given(o, initial), orig[optind], Follow(orig, optind), nextchar)
    {
      SameAt(argv[..], orig, optind);
      var g := Given(o, initial);
      var elem := argv[optind];
      var follow := if optind + 1 < argv.Length then Some(argv[optind + 1]) else None;
      if TriesLong(g, elem) {
        var m := FindLong(g.longopts.value, Typed(nextchar));
        step := DecodeFound(g, elem, follow, nextchar, m);
      } else {
        step := DecodeShort(g, follow, nextchar);
      }
    }

    /** The step that comes next, and that taking it keeps the vector sorted. */
    method NextStep(initial: bool, ghost a: seq<string>) returns (step: Step)
      requires Going(initial) && nextchar != "" && a == argv[..]
      ensures optind + step.used <= |a| && (step.rest != "" ==> optind + step.used < |a|)
      ensures var more := past.Then(Scan([step.event], orig[optind..optind + step.used], []));
              && Sorted(a, orig, first, last, optind + step.used, more)
              && more.events == past.events + [step.event]
              && Left(o, orig, more, false, optind + step.used, step.rest)
    {
      OptionTaken(o, initial, a, orig, first, last, optind, past, nextchar);
      step := Look(initial);
    }

    /** The rest of a call: take the next option character or long option. */
    method TakeOption(initial: bool) returns (e: Event)
      requires Going(initial) && nextchar != ""
      modifies this`optind, this`nextchar, this`past
      ensures Going(false) && past.events == old(past.events) + [e]
    {
      ghost var a := argv[..];
      var step := NextStep(initial, a);
      past := past.Then(Scan([step.event], orig[optind..optind + step.used], []));
      optind := optind + step.used;
      nextchar := step.rest;
      e := step.event;
      assert argv[..] == a;
    }
  }

  /** The caller's loop: getopt until EOF. */
  method ScanAll(argv: array<string>, o: Options) returns (events: seq<Event>, optind: nat)
    requires argv.Length >= 1
    modifies argv
    ensures var whole := ScanFrom(o, true, old(argv[..]), 1, "");
            && events == whole.events
            && argv[..] == [old(argv[0])] + whole.options + whole.others
            && optind == 1 + |whole.options|
  {
    var s := new Scanner(argv, o);
    events := [];
    while true
      invariant s.argv == argv && s.o == o && s.orig == old(argv[..])
      invariant s.Valid() && s.past.events == events
      decreases |ScanFrom(o, true, old(argv[..]), 1, "").events| - |events|
    {
      var e := s.Next();
      if e == None {
        return events, s.optind;
      }
      LeftComes(o, s.orig, s.past, false, s.optind, s.nextchar);
      events := events + [e.value];
    }
  }
}
