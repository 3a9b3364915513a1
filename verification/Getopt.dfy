/** The argument scanner of USBPcapCMD/getopt.c as a state machine.

    The functions give the meaning of one call (Call), of a whole run up to the
    first -1 (Run), and, independently of any permutation, of a scan of the
    untouched vector (Scan). Theorem RunIsScan says a run that permutes argv in
    place reports exactly what the plain scan reports and leaves the vector
    stably partitioned. */
module Getopt {
  import opened Wrappers
  import opened Permute
  import Sequences

  datatype ArgumentRule = NoArgument | RequiredArgument | OptionalArgument

  /** One row of the long option table; flag names the variable to set, if any. */
  datatype LongOption = LongOption(name: string, hasArg: ArgumentRule, flag: Option<nat>, val: int)

  /** What getopt_internal makes of its options string and flags. */
  datatype Config = Config(letters: string, allArgs: bool, permute: bool,
                           longs: Option<seq<LongOption>>, longOnly: bool)

  const BADCH := '?' as int
  const INORDER := 1

  function BadArg(cfg: Config): int {
    if cfg.letters != "" && cfg.letters[0] == ':' then ':' as int else BADCH
  }

  /** The configuration of a call: '-' in front of the option letters asks for
      all arguments in order, '+' or POSIXLY_CORRECT turns permutation off. */
  function Configure(options: string, longs: Option<seq<LongOption>>, permute: bool, longOnly: bool,
                     posixlyCorrect: bool): Config
  {
    var minus := options != "" && options[0] == '-';
    var plus := options != "" && options[0] == '+';
    Config(if minus || plus then options[1..] else options,
           minus,
           permute && (minus || !(posixlyCorrect || plus)),
           longs, longOnly)
  }

  /** What one call reports to the program. */
  datatype Event = Event(ret: int, optarg: Option<string>, optopt: Option<int>,
                         longIndex: Option<nat>, store: Option<(nat, int)>)

  function Plain(ret: int, optarg: Option<string>): Event {
    Event(ret, optarg, None, None, None)
  }

  function Complaint(ret: int, optopt: int): Event {
    Event(ret, None, Some(optopt), None, None)
  }

  /** What processing one option does: report an event, use up whole arguments,
      and leave the rest of a cluster of letters. */
  datatype Outcome = Outcome(event: Event, consumed: nat, place: string)

  function IndexOf(s: string, c: char): (r: Option<nat>)
    ensures r.Some? ==> r.value < |s| && s[r.value] == c && c !in s[..r.value]
    ensures r.None? ==> c !in s
  {
    if s == "" then None
    else if s[0] == c then Some(0)
    else match IndexOf(s[1..], c)
         case None => None
         case Some(k) =>
           assert s[..k + 1] == [s[0]] + s[1..][..k];
           Some(k + 1)
  }

  function At(s: seq<string>, k: nat): Option<string> {
    if k < |s| then Some(s[k]) else None
  }

  predicate LetterAt(s: string, k: nat, c: char) {
    k < |s| && s[k] == c
  }

  // ---------- long options ----------

  datatype Match = NoMatch | Ambiguous | Found(index: nat)

  predicate Identical(a: LongOption, b: LongOption) {
    a.hasArg == b.hasArg && a.flag == b.flag && a.val == b.val
  }

  /** The matching loop of parse_long_options from row i on. */
  function MatchFrom(longs: seq<LongOption>, key: string, shortToo: bool,
                     i: nat, found: Option<nat>, ambiguous: bool): (r: Match)
    requires i <= |longs|
    requires found.Some? ==> found.value < |longs|
    ensures r.Found? ==> r.index < |longs|
    decreases |longs| - i
  {
    if i == |longs| then
      if ambiguous then Ambiguous else if found.Some? then Found(found.value) else NoMatch
    else if !(key <= longs[i].name) then
      MatchFrom(longs, key, shortToo, i + 1, found, ambiguous)
    else if |longs[i].name| == |key| then Found(i)
    else if shortToo && |key| == 1 then
      MatchFrom(longs, key, shortToo, i + 1, found, ambiguous)
    else if found.None? then
      MatchFrom(longs, key, shortToo, i + 1, Some(i), ambiguous)
    else
      MatchFrom(longs, key, shortToo, i + 1, found, ambiguous || !Identical(longs[i], longs[found.value]))
  }

  function MatchLong(longs: seq<LongOption>, key: string, shortToo: bool): (r: Match)
    ensures r.Found? ==> r.index < |longs|
  {
    MatchFrom(longs, key, shortToo, 0, None, false)
  }

  predicate Exact(longs: seq<LongOption>, key: string, i: nat) {
    i < |longs| && longs[i].name == key
  }

  predicate Abbreviates(longs: seq<LongOption>, key: string, shortToo: bool, i: nat) {
    i < |longs| && key <= longs[i].name && longs[i].name != key && !(shortToo && |key| == 1)
  }

  lemma {:induction false} MatchFromMeaning(longs: seq<LongOption>, key: string, shortToo: bool,
                                            i: nat, found: Option<nat>, ambiguous: bool)
    requires i <= |longs|
    requires forall k :: 0 <= k < i ==> !Exact(longs, key, k)
    requires found.None? ==> !ambiguous && forall k :: 0 <= k < i ==> !Abbreviates(longs, key, shortToo, k)
    requires found.Some? ==> found.value < i && Abbreviates(longs, key, shortToo, found.value)
    requires found.Some? ==> forall k :: 0 <= k < found.value ==> !Abbreviates(longs, key, shortToo, k)
    requires found.Some? ==> (ambiguous <==> exists k :: 0 <= k < i && Abbreviates(longs, key, shortToo, k)
                                                         && !Identical(longs[k], longs[found.value]))
    ensures MatchMeaning(longs, key, shortToo, MatchFrom(longs, key, shortToo, i, found, ambiguous))
    decreases |longs| - i
  {
    if i < |longs| {
      if !(key <= longs[i].name) {
        MatchFromMeaning(longs, key, shortToo, i + 1, found, ambiguous);
      } else if |longs[i].name| == |key| {
        assert longs[i].name == key;
      } else if shortToo && |key| == 1 {
        MatchFromMeaning(longs, key, shortToo, i + 1, found, ambiguous);
      } else if found.None? {
        MatchFromMeaning(longs, key, shortToo, i + 1, Some(i), ambiguous);
      } else {
        var ambiguous' := ambiguous || !Identical(longs[i], longs[found.value]);
        if !Identical(longs[i], longs[found.value]) {
          assert Abbreviates(longs, key, shortToo, i);
        }
        MatchFromMeaning(longs, key, shortToo, i + 1, found, ambiguous');
      }
    }
  }

  /** The first exactly named row wins; failing that, the first abbreviated row,
      unless another abbreviated row means something else. */
  ghost predicate MatchMeaning(longs: seq<LongOption>, key: string, shortToo: bool, r: Match) {
    match r
    case Found(i) =>
      (Exact(longs, key, i) && forall k :: 0 <= k < i ==> !Exact(longs, key, k))
      || ((forall k: nat :: !Exact(longs, key, k))
          && Abbreviates(longs, key, shortToo, i)
          && (forall k :: 0 <= k < i ==> !Abbreviates(longs, key, shortToo, k))
          && (forall k: nat :: Abbreviates(longs, key, shortToo, k) ==> Identical(longs[k], longs[i])))
    case Ambiguous =>
      && (forall k: nat :: !Exact(longs, key, k))
      && (exists j: nat, k: nat :: Abbreviates(longs, key, shortToo, j) && Abbreviates(longs, key, shortToo, k)
                                   && !Identical(longs[j], longs[k]))
    case NoMatch =>
      forall k: nat :: !Exact(longs, key, k) && !Abbreviates(longs, key, shortToo, k)
  }

  lemma MatchLongMeaning(longs: seq<LongOption>, key: string, shortToo: bool)
    ensures MatchMeaning(longs, key, shortToo, MatchLong(longs, key, shortToo))
  {
    MatchFromMeaning(longs, key, shortToo, 0, None, false);
  }

  /** parse_long_options on the text after the dashes; next is the following
      argument vector entry. None: not a long option, try it as letters. */
  function ParseLong(cfg: Config, longs: seq<LongOption>, current: string, next: Option<string>, shortToo: bool)
    : (r: Option<Outcome>)
    ensures r.Some? ==> 1 <= r.value.consumed <= (if next.Some? then 2 else 1)
    ensures r.Some? ==> r.value.place == ""
    ensures r.None? ==> shortToo
  {
    var equal := IndexOf(current, '=');
    var key := if equal.Some? then current[..equal.value] else current;
    match MatchLong(longs, key, shortToo)
    case Ambiguous => Some(Outcome(Complaint(BADCH, 0), 1, ""))
    case NoMatch =>
      if shortToo then None else Some(Outcome(Complaint(BADCH, 0), 1, ""))
    case Found(m) =>
      var o := longs[m];
      var complaint := Complaint(BadArg(cfg), if o.flag.None? then o.val else 0);
      if o.hasArg.NoArgument? && equal.Some? then Some(Outcome(complaint, 1, ""))
      else if o.hasArg.RequiredArgument? && equal.None? && next.None? then Some(Outcome(complaint, 1, ""))
      else
        var arg :=
          if o.hasArg.NoArgument? then None
          else if equal.Some? then Some(current[equal.value + 1..])
          else if o.hasArg.RequiredArgument? then next
          else None;
        var used := if o.hasArg.RequiredArgument? && equal.None? then 2 else 1;
        match o.flag
        case None => Some(Outcome(Event(o.val, arg, None, Some(m), None), used, ""))
        case Some(v) => Some(Outcome(Event(0, arg, None, Some(m), Some((v, o.val))), used, ""))
  }

  // ---------- one option ----------

  /** The letter part of getopt_internal: place is the unread text of tail[0]. */
  function ShortOption(cfg: Config, tail: seq<string>, place: string): (r: Outcome)
    requires tail != [] && place != ""
  {
    var c, rest := place[0], place[1..];
    var oli := IndexOf(cfg.letters, c);
    var step := if rest == "" then 1 else 0;
    if c == ':' || (c == '-' && rest != "") || oli.None? then
      if c == '-' && rest == "" then Outcome(Plain(-1, None), 0, rest)
      else Outcome(Complaint(BADCH, c as int), step, rest)
    else
      var k := oli.value;
      if cfg.longs.Some? && c == 'W' && LetterAt(cfg.letters, k + 1, ';') then
        if rest != "" then ParseLong(cfg, cfg.longs.value, rest, At(tail, 1), false).value
        else if |tail| < 2 then Outcome(Complaint(BadArg(cfg), c as int), 1, "")
        else
          var o := ParseLong(cfg, cfg.longs.value, tail[1], At(tail, 2), false).value;
          o.(consumed := o.consumed + 1)
      else if !LetterAt(cfg.letters, k + 1, ':') then Outcome(Plain(c as int, None), step, rest)
      else if rest != "" then Outcome(Plain(c as int, Some(rest)), 1, "")
      else if LetterAt(cfg.letters, k + 2, ':') then Outcome(Plain(c as int, None), 1, "")
      else if |tail| < 2 then Outcome(Complaint(BadArg(cfg), c as int), 1, "")
      else Outcome(Plain(c as int, Some(tail[1])), 2, "")
  }

  /** Processing of the option at the front of tail. whole says that place is all
      of tail[0], which happens for a lone dash only. */
  function Element(cfg: Config, tail: seq<string>, place: string, whole: bool): (r: Outcome)
    requires tail != [] && place != ""
  {
    if cfg.longs.Some? && !whole && (place[0] == '-' || cfg.longOnly) then
      var dash := place[0] == '-';
      var current := if dash then place[1..] else place;
      var shortToo := !dash && place[0] != ':' && place[0] in cfg.letters;
      match ParseLong(cfg, cfg.longs.value, current, At(tail, 1), shortToo)
      case Some(o) => o
      case None => ShortOption(cfg, tail, place)
    else ShortOption(cfg, tail, place)
  }

  /** -1 is reserved for the end of the scan: no long option may carry it. */
  predicate NoReservedValue(cfg: Config) {
    cfg.longs.Some? ==> forall o :: o in cfg.longs.value && o.flag.None? ==> o.val != -1
  }

  ghost predicate Progress(cfg: Config, tail: seq<string>, place: string, stray: bool, r: Outcome) {
    && r.consumed <= |tail|
    && (r.consumed > 0 ==> r.place == "")
    && (r.event.ret != -1 && r.consumed == 0 ==> 0 < |r.place| < |place|)
    && (r.event.ret == -1 <==> stray)
    && (r.event.ret == -1 ==> r.consumed == 0 && r.place == "")
  }

  lemma ParseLongProgress(cfg: Config, current: string, next: Option<string>, shortToo: bool)
    requires cfg.longs.Some? && NoReservedValue(cfg)
    ensures var r := ParseLong(cfg, cfg.longs.value, current, next, shortToo); r.Some? ==> r.value.event.ret != -1
  {}

  lemma ShortOptionProgress(cfg: Config, tail: seq<string>, place: string)
    requires tail != [] && place != "" && NoReservedValue(cfg)
    ensures Progress(cfg, tail, place, place == "-" && '-' !in cfg.letters, ShortOption(cfg, tail, place))
  {
    if cfg.longs.Some? {
      ParseLongProgress(cfg, place[1..], At(tail, 1), false);
      if |tail| >= 2 { ParseLongProgress(cfg, tail[1], At(tail, 2), false); }
    }
  }

  /** Every option uses up an argument or shortens its cluster, except a dash
      closing a cluster while '-' is no option letter and no long options are given. */
  lemma ElementProgress(cfg: Config, tail: seq<string>, place: string, whole: bool)
    requires tail != [] && place != "" && NoReservedValue(cfg)
    ensures Progress(cfg, tail, place, place == "-" && '-' !in cfg.letters && (cfg.longs.None? || whole),
                     Element(cfg, tail, place, whole))
  {
    ShortOptionProgress(cfg, tail, place);
    if cfg.longs.Some? {
      var dash := place[0] == '-';
      ParseLongProgress(cfg, if dash then place[1..] else place, At(tail, 1),
                        !dash && place[0] != ':' && place[0] in cfg.letters);
    }
  }

  // ---------- one call ----------

  /** The scanner's variables between calls. */
  datatype State = State(argv: seq<string>, optind: nat, place: string,
                         nonoptStart: Option<nat>, nonoptEnd: Option<nat>, reset: bool)
  {
    /** Non-options skipped so far are [nonoptStart, nonoptEnd), or reach up to
        optind while no later option has been met. */
    ghost predicate Valid() {
      && 1 <= optind <= |argv|
      && (place != "" ==> optind < |argv| && |place| <= |argv[optind]|)
      && (nonoptStart.None? ==> nonoptEnd.None?)
      && (nonoptStart.Some? ==> 1 <= nonoptStart.value < optind)
      && (nonoptEnd.Some? ==> nonoptStart.Some? && nonoptStart.value < nonoptEnd.value <= optind
                              && (place == "" ==> nonoptEnd.value < optind))
      && (nonoptStart.Some? && nonoptEnd.None? ==> place == "")
    }

    /** Everything before optind that is not a skipped non-option. */
    ghost function Opts(): seq<string>
      requires Valid()
    {
      if nonoptStart.None? then argv[..optind]
      else if nonoptEnd.None? then argv[..nonoptStart.value]
      else argv[..nonoptStart.value] + argv[nonoptEnd.value..optind]
    }

    ghost function Nons(): seq<string>
      requires Valid()
    {
      if nonoptStart.None? then []
      else if nonoptEnd.None? then argv[nonoptStart.value..optind]
      else argv[nonoptStart.value..nonoptEnd.value]
    }
  }

  function Initial(argv: seq<string>): State {
    State(argv, 1, "", None, None, false)
  }

  predicate NonOption(cfg: Config, arg: string) {
    arg == "" || arg[0] != '-' || (|arg| == 1 && '-' !in cfg.letters)
  }

  datatype Fetched = Stop(state: State, event: Event) | Process(state: State, whole: bool)

  /** Exchange the skipped non-options with the options that followed them. */
  function MoveNons(s: State): (r: State)
    requires s.nonoptStart.Some? && s.nonoptEnd.Some?
    requires s.nonoptStart.value <= s.nonoptEnd.value <= s.optind <= |s.argv|
    ensures |r.argv| == |s.argv|
  {
    s.(argv := Exchange(s.argv, s.nonoptStart.value, s.nonoptEnd.value, s.optind))
  }

  /** End of the scan: put the skipped non-options behind the options and point
      optind at the first of them. */
  function Finish(s: State): (r: State)
    requires s.nonoptEnd.Some? ==>
             s.nonoptStart.Some? && s.nonoptStart.value <= s.nonoptEnd.value <= s.optind <= |s.argv|
    ensures |r.argv| == |s.argv|
  {
    if s.nonoptEnd.Some? then
      MoveNons(s).(optind := s.optind - (s.nonoptEnd.value - s.nonoptStart.value),
                   nonoptStart := None, nonoptEnd := None)
    else if s.nonoptStart.Some? then
      s.(optind := s.nonoptStart.value, nonoptStart := None, nonoptEnd := None)
    else s
  }

  /** The part of getopt_internal under the label start: skip to the next option. */
  function Fetch(cfg: Config, s: State): (r: Fetched)
    requires s.Valid() && s.place == ""
    decreases |s.argv| - s.optind
  {
    if s.optind >= |s.argv| then Stop(Finish(s), Plain(-1, None))
    else
      var arg := s.argv[s.optind];
      if NonOption(cfg, arg) then
        if cfg.allArgs then Stop(s.(optind := s.optind + 1), Plain(INORDER, Some(arg)))
        else if !cfg.permute then Stop(s, Plain(-1, None))
        else if s.nonoptStart.None? then
          Fetch(cfg, s.(nonoptStart := Some(s.optind), optind := s.optind + 1))
        else if s.nonoptEnd.Some? then
          var moved := MoveNons(s);
          Fetch(cfg, moved.(nonoptStart := Some(s.optind - (s.nonoptEnd.value - s.nonoptStart.value)),
                            nonoptEnd := None, optind := s.optind + 1))
        else Fetch(cfg, s.(optind := s.optind + 1))
      else
        var end := if s.nonoptStart.Some? && s.nonoptEnd.None? then Some(s.optind) else s.nonoptEnd;
        if arg == "--" then
          Stop(Finish(s.(nonoptEnd := end, optind := s.optind + 1)), Plain(-1, None))
        else
          Process(s.(nonoptEnd := end, place := if |arg| > 1 then arg[1..] else arg), |arg| == 1)
  }

  /** Carrying out a reset asked for by the caller. */
  function Restarted(s: State): (r: State)
    requires s.Valid()
    ensures r.Valid() && !r.reset
  {
    if s.reset then s.(nonoptStart := None, nonoptEnd := None, place := "", reset := false) else s
  }

  /** One call of getopt_internal. */
  function Call(cfg: Config, s: State): (State, Event)
    requires s.Valid()
  {
    var s0 := Restarted(s);
    var f := if s0.place == "" then Fetch(cfg, s0) else Process(s0, false);
    match f
    case Stop(t, e) => (t, e)
    case Process(t, whole) =>
      FetchValid(cfg, s0);
      var o := Element(cfg, t.argv[t.optind..], t.place, whole);
      (t.(optind := t.optind + o.consumed, place := o.place), o.event)
  }

  lemma {:induction false} FetchValid(cfg: Config, s: State)
    requires s.Valid() && !s.reset
    ensures s.place == "" && Fetch(cfg, s).Process? ==>
              var t := Fetch(cfg, s).state;
              && t.Valid() && t.place != "" && !t.reset
              && |t.argv| == |s.argv| && s.optind <= t.optind
              && (t.nonoptStart.Some? ==> t.nonoptEnd.Some?)
              && (Fetch(cfg, s).whole <==> t.place == "-" == t.argv[t.optind])
    decreases |s.argv| - s.optind
  {
    if s.place == "" && s.optind < |s.argv| && NonOption(cfg, s.argv[s.optind]) && !cfg.allArgs && cfg.permute {
      FetchValid(cfg, AfterSkip(s));
    }
  }

  /** The state Fetch goes on with after skipping the non-option at optind. */
  function AfterSkip(s: State): (t: State)
    requires s.Valid() && s.place == "" && s.optind < |s.argv|
    ensures t.Valid() && |t.argv| == |s.argv| && t.optind == s.optind + 1 && t.place == ""
  {
    if s.nonoptStart.None? then s.(nonoptStart := Some(s.optind), optind := s.optind + 1)
    else if s.nonoptEnd.Some? then
      MoveNons(s).(nonoptStart := Some(s.optind - (s.nonoptEnd.value - s.nonoptStart.value)),
                   nonoptEnd := None, optind := s.optind + 1)
    else s.(optind := s.optind + 1)
  }

  // ---------- the reference: a scan that permutes nothing ----------

  /** Result of reading an untouched vector from left to right: the events, the
      options with their arguments, the non-options, what is left after "--",
      and whether the scan broke off at a stray dash. */
  datatype Scanned = Scanned(events: seq<Event>, opts: seq<string>, nons: seq<string>,
                             rest: seq<string>, stray: bool)

  function Weight(tail: seq<string>, place: string): nat {
    if place != "" then |place| else if tail == [] then 0 else |tail[0]| + 1
  }

  function Scan(cfg: Config, tail: seq<string>, place: string): Scanned
    requires place != "" ==> tail != []
    requires NoReservedValue(cfg)
    decreases |tail|, Weight(tail, place), 1
  {
    if place != "" then ScanElement(cfg, tail, place, false)
    else if tail == [] then Scanned([], [], [], [], false)
    else if NonOption(cfg, tail[0]) then
      var r := Scan(cfg, tail[1..], "");
      r.(nons := [tail[0]] + r.nons)
    else if tail[0] == "--" then Scanned([], [tail[0]], [], tail[1..], false)
    else ScanElement(cfg, tail, if |tail[0]| > 1 then tail[0][1..] else tail[0], |tail[0]| == 1)
  }

  function ScanElement(cfg: Config, tail: seq<string>, place: string, whole: bool): Scanned
    requires place != "" && tail != []
    requires NoReservedValue(cfg)
    decreases |tail|, |place|, 0
  {
    ElementProgress(cfg, tail, place, whole);
    var o := Element(cfg, tail, place, whole);
    if o.event.ret == -1 then Scanned([], [], [], tail, true)
    else
      var r := Scan(cfg, tail[o.consumed..], o.place);
      r.(events := [o.event] + r.events, opts := tail[..o.consumed] + r.opts)
  }

  /** The entries of s carrying the given label, in order. */
  ghost function Labelled(s: seq<string>, labels: seq<bool>, kind: bool): seq<string>
    requires |labels| == |s|
  {
    if s == [] then []
    else (if labels[0] == kind then [s[0]] else []) + Labelled(s[1..], labels[1..], kind)
  }

  /** opts and nons are complementary subsequences of the vector before rest. */
  ghost predicate StablePartition(tail: seq<string>, opts: seq<string>, nons: seq<string>, rest: seq<string>) {
    exists labels: seq<bool> :: PartitionBy(tail, labels, opts, nons, rest)
  }

  ghost predicate PartitionBy(tail: seq<string>, labels: seq<bool>, opts: seq<string>, nons: seq<string>,
                              rest: seq<string>) {
    && |labels| <= |tail| && rest == tail[|labels|..]
    && opts == Labelled(tail[..|labels|], labels, true)
    && nons == Labelled(tail[..|labels|], labels, false)
  }

  lemma {:induction false} LabelledAll(s: seq<string>, t: seq<string>, labels: seq<bool>, kind: bool)
    requires |labels| == |t|
    ensures Labelled(s + t, seq(|s|, _ => kind) + labels, kind) == s + Labelled(t, labels, kind)
    ensures Labelled(s + t, seq(|s|, _ => kind) + labels, !kind) == Labelled(t, labels, !kind)
  {
    var l := seq(|s|, _ => kind) + labels;
    if s == [] {
      assert s + t == t && l == labels;
    } else {
      assert (s + t)[1..] == s[1..] + t;
      assert l[1..] == seq(|s[1..]|, _ => kind) + labels;
      LabelledAll(s[1..], t, labels, kind);
      assert s == [s[0]] + s[1..];
    }
  }

  lemma PartitionPrepend(head: seq<string>, tail: seq<string>, kind: bool, labels: seq<bool>,
                         opts: seq<string>, nons: seq<string>, rest: seq<string>)
    requires PartitionBy(tail, labels, opts, nons, rest)
    ensures StablePartition(head + tail, if kind then head + opts else opts,
                            if kind then nons else head + nons, rest)
  {
    var all := seq(|head|, _ => kind) + labels;
    LabelledAll(head, tail[..|labels|], labels, kind);
    assert (head + tail)[..|all|] == head + tail[..|labels|];
    assert (head + tail)[|all|..] == tail[|labels|..];
    assert PartitionBy(head + tail, all, if kind then head + opts else opts,
                       if kind then nons else head + nons, rest);
  }

  /** What a scan makes of a vector: every entry passed is sorted into options or
      non-options, keeping the order of each; what it calls non-options are
      non-options; only "--" or a stray dash leaves a rest. */
  ghost predicate ScanSorts(cfg: Config, tail: seq<string>, r: Scanned) {
    && StablePartition(tail, r.opts, r.nons, r.rest)
    && (forall a :: a in r.nons ==> NonOption(cfg, a))
    && (r.rest != [] && !r.stray ==> EndsInDashes(r.opts))
    && (forall e :: e in r.events ==> e.ret != -1)
  }

  ghost predicate EndsInDashes(opts: seq<string>) {
    opts != [] && opts[|opts| - 1] == "--"
  }

  lemma SortsNonOption(cfg: Config, tail: seq<string>, r: Scanned)
    requires tail != [] && NonOption(cfg, tail[0]) && ScanSorts(cfg, tail[1..], r)
    ensures ScanSorts(cfg, tail, r.(nons := [tail[0]] + r.nons))
  {
    var labels :| PartitionBy(tail[1..], labels, r.opts, r.nons, r.rest);
    PartitionPrepend([tail[0]], tail[1..], false, labels, r.opts, r.nons, r.rest);
    assert [tail[0]] + tail[1..] == tail;
  }

  lemma SortsElement(cfg: Config, tail: seq<string>, n: nat, e: Event, r: Scanned)
    requires n <= |tail| && e.ret != -1 && ScanSorts(cfg, tail[n..], r)
    ensures ScanSorts(cfg, tail, r.(events := [e] + r.events, opts := tail[..n] + r.opts))
  {
    assert StablePartition(tail, tail[..n] + r.opts, r.nons, r.rest) by {
      var labels :| PartitionBy(tail[n..], labels, r.opts, r.nons, r.rest);
      PartitionPrepend(tail[..n], tail[n..], true, labels, r.opts, r.nons, r.rest);
      Sequences.Split(tail, n);
    }
    EndsInDashesPrepend(tail[..n], r.opts);
  }

  lemma EndsInDashesPrepend(head: seq<string>, opts: seq<string>)
    ensures EndsInDashes(opts) ==> EndsInDashes(head + opts)
  {}

  lemma SortsNothing(cfg: Config, tail: seq<string>)
    ensures ScanSorts(cfg, tail, Scanned([], [], [], tail, true))
    ensures tail == [] ==> ScanSorts(cfg, tail, Scanned([], [], [], [], false))
  {
    assert PartitionBy(tail, [], [], [], tail);
  }

  lemma SortsDashes(cfg: Config, tail: seq<string>)
    requires tail != [] && tail[0] == "--"
    ensures ScanSorts(cfg, tail, Scanned([], ["--"], [], tail[1..], false))
  {
    var one := tail[..1];
    assert one[1..] == [];
    assert Labelled(one, [true], true) == ["--"] + Labelled(one[1..], [true][1..], true);
    assert Labelled(one, [true], false) == [] + Labelled(one[1..], [true][1..], false);
    assert PartitionBy(tail, [true], ["--"], [], tail[1..]);
  }

  lemma {:induction false} ScanPartitions(cfg: Config, tail: seq<string>, place: string)
    requires place != "" ==> tail != []
    requires NoReservedValue(cfg)
    ensures ScanSorts(cfg, tail, Scan(cfg, tail, place))
    decreases |tail|, Weight(tail, place), 1
  {
    SortsNothing(cfg, tail);
    if place != "" {
      ScanElementPartitions(cfg, tail, place, false);
    } else if tail != [] && NonOption(cfg, tail[0]) {
      ScanPartitions(cfg, tail[1..], "");
      SortsNonOption(cfg, tail, Scan(cfg, tail[1..], ""));
    } else if tail != [] && tail[0] == "--" {
      SortsDashes(cfg, tail);
    } else if tail != [] {
      ScanElementPartitions(cfg, tail, if |tail[0]| > 1 then tail[0][1..] else tail[0], |tail[0]| == 1);
    }
  }

  lemma {:induction false} ScanElementPartitions(cfg: Config, tail: seq<string>, place: string, whole: bool)
    requires place != "" && tail != []
    requires NoReservedValue(cfg)
    ensures ScanSorts(cfg, tail, ScanElement(cfg, tail, place, whole))
    decreases |tail|, |place|, 0
  {
    ElementProgress(cfg, tail, place, whole);
    var o := Element(cfg, tail, place, whole);
    if o.event.ret == -1 {
      SortsNothing(cfg, tail);
    } else {
      ScanPartitions(cfg, tail[o.consumed..], o.place);
      SortsElement(cfg, tail, o.consumed, o.event, Scan(cfg, tail[o.consumed..], o.place));
    }
  }

  /** A stray dash needs a scan without long options whose letters lack '-'. */
  lemma {:induction false} NeverStray(cfg: Config, tail: seq<string>, place: string)
    requires place != "" ==> tail != []
    requires NoReservedValue(cfg)
    requires cfg.longs.Some? || '-' in cfg.letters
    ensures !Scan(cfg, tail, place).stray
    decreases |tail|, Weight(tail, place), 1
  {
    if place != "" {
      NeverStrayElement(cfg, tail, place, false);
    } else if tail != [] && NonOption(cfg, tail[0]) {
      NeverStray(cfg, tail[1..], "");
    } else if tail != [] && tail[0] != "--" {
      NeverStrayElement(cfg, tail, if |tail[0]| > 1 then tail[0][1..] else tail[0], |tail[0]| == 1);
    }
  }

  lemma {:induction false} NeverStrayElement(cfg: Config, tail: seq<string>, place: string, whole: bool)
    requires place != "" && tail != []
    requires NoReservedValue(cfg)
    requires whole ==> '-' in cfg.letters
    requires cfg.longs.Some? || '-' in cfg.letters
    ensures !ScanElement(cfg, tail, place, whole).stray
    decreases |tail|, |place|, 0
  {
    ElementProgress(cfg, tail, place, whole);
    var o := Element(cfg, tail, place, whole);
    NeverStray(cfg, tail[o.consumed..], o.place);
  }

  // ---------- whole runs ----------

  /** What is known of a state, together with the scan of what it has not read. */
  ghost predicate Represents(s: State, tail: seq<string>, opts: seq<string>, nons: seq<string>) {
    s.Valid() && s.argv[s.optind..] == tail && s.Opts() == opts && s.Nons() == nons
  }

  lemma SkipRepresents(cfg: Config, s: State)
    requires s.Valid() && s.place == "" && s.optind < |s.argv|
    ensures var tail := s.argv[s.optind..];
            Represents(AfterSkip(s), tail[1..], s.Opts(), s.Nons() + [tail[0]])
  {
    if s.nonoptStart.None? {
    } else if s.nonoptEnd.Some? {
      ExchangeSkip(s.argv, s.nonoptStart.value, s.nonoptEnd.value, s.optind);
    } else {
      assert s.argv[s.nonoptStart.value..s.optind + 1] == s.Nons() + [s.argv[s.optind]];
    }
  }

  lemma ExchangeSkip(v: seq<string>, b: nat, e: nat, o: nat)
    requires b < e < o < |v|
    ensures var x := Exchange(v, b, e, o);
      && x[..b + (o - e)] == v[..b] + v[e..o]
      && x[b + (o - e)..o + 1] == v[b..e] + [v[o]]
      && x[o + 1..] == v[o + 1..]
  {}

  /** f, reached by Fetch, accounts for s and for r, the scan of what s has not read. */
  ghost predicate FetchAgrees(cfg: Config, opts: seq<string>, nons: seq<string>, f: Fetched, r: Scanned)
    requires NoReservedValue(cfg)
  {
    match f
    case Stop(t, e) =>
      && e == Plain(-1, None) && r.events == [] && !r.stray
      && t.argv == (opts + r.opts) + (nons + r.nons) + r.rest
      && t.optind == |opts| + |r.opts|
      && t.nonoptStart.None? && t.nonoptEnd.None? && t.place == "" && !t.reset
    case Process(t, whole) =>
      && t.Valid() && t.place != "" && !t.reset && t.optind < |t.argv|
      && (t.nonoptStart.Some? ==> t.nonoptEnd.Some?)
      && (var q := ScanElement(cfg, t.argv[t.optind..], t.place, whole);
          && opts + r.opts == t.Opts() + q.opts
          && nons + r.nons == t.Nons() + q.nons
          && r.rest == q.rest && r.events == q.events && r.stray == q.stray)
  }

  lemma FetchAgreesSkip(cfg: Config, opts: seq<string>, nons: seq<string>, arg: string, f: Fetched, q: Scanned)
    requires NoReservedValue(cfg)
    requires FetchAgrees(cfg, opts, nons + [arg], f, q)
    ensures FetchAgrees(cfg, opts, nons, f, q.(nons := [arg] + q.nons))
  {
    assert (nons + [arg]) + q.nons == nons + ([arg] + q.nons);
  }

  /** Fetch against the scan: it skips non-options exactly as the scan does. */
  lemma {:induction false} FetchIsScan(cfg: Config, s: State)
    requires s.Valid() && s.place == "" && !s.reset
    requires cfg.permute && !cfg.allArgs && NoReservedValue(cfg)
    ensures FetchAgrees(cfg, s.Opts(), s.Nons(), Fetch(cfg, s), Scan(cfg, s.argv[s.optind..], ""))
    decreases |s.argv| - s.optind
  {
    var tail := s.argv[s.optind..];
    if s.optind == |s.argv| {
      FetchAtEnd(cfg, s);
    } else if NonOption(cfg, tail[0]) {
      var u := AfterSkip(s);
      SkipRepresents(cfg, s);
      FetchIsScan(cfg, u);
      assert Fetch(cfg, s) == Fetch(cfg, u);
      FetchAgreesSkip(cfg, s.Opts(), s.Nons(), tail[0], Fetch(cfg, u), Scan(cfg, tail[1..], ""));
    } else if tail[0] == "--" {
      FetchAtDashes(cfg, s);
    } else {
      FetchAtOption(cfg, s);
    }
  }

  lemma FetchAtEnd(cfg: Config, s: State)
    requires s.Valid() && s.place == "" && !s.reset && NoReservedValue(cfg)
    requires s.optind == |s.argv|
    ensures FetchAgrees(cfg, s.Opts(), s.Nons(), Fetch(cfg, s), Scan(cfg, s.argv[s.optind..], ""))
  {
    FinishRepresents(s);
    FinishAgrees(cfg, s.Opts(), s.Nons(), [], s.argv[s.optind..], Finish(s));
  }

  lemma FinishAgrees(cfg: Config, opts: seq<string>, nons: seq<string>, more: seq<string>, rest: seq<string>, t: State)
    requires NoReservedValue(cfg)
    requires t.argv == (opts + more) + nons + rest && t.optind == |opts| + |more|
    requires t.nonoptStart.None? && t.nonoptEnd.None? && t.place == "" && !t.reset
    ensures FetchAgrees(cfg, opts, nons, Stop(t, Plain(-1, None)), Scanned([], more, [], rest, false))
  {}

  lemma FetchAtDashes(cfg: Config, s: State)
    requires s.Valid() && s.place == "" && !s.reset && NoReservedValue(cfg)
    requires s.optind < |s.argv| && s.argv[s.optind] == "--"
    ensures FetchAgrees(cfg, s.Opts(), s.Nons(), Fetch(cfg, s), Scan(cfg, s.argv[s.optind..], ""))
  {
    var u := PassDashes(s);
    DashesStop(cfg, s, u);
    FinishRepresents(u);
    FinishAgrees(cfg, s.Opts(), s.Nons(), ["--"], s.argv[s.optind..][1..], Finish(u));
  }

  lemma DashesStop(cfg: Config, s: State, u: State)
    requires s.Valid() && s.place == "" && NoReservedValue(cfg)
    requires s.optind < |s.argv| && s.argv[s.optind] == "--"
    requires u == s.(nonoptEnd := if s.nonoptStart.Some? && s.nonoptEnd.None? then Some(s.optind) else s.nonoptEnd,
                     optind := s.optind + 1)
    ensures Fetch(cfg, s) == Stop(Finish(u), Plain(-1, None))
    ensures Scan(cfg, s.argv[s.optind..], "") == Scanned([], ["--"], [], s.argv[s.optind..][1..], false)
  {}

  lemma PassDashes(s: State) returns (u: State)
    requires s.Valid() && s.place == "" && s.optind < |s.argv|
    ensures u == s.(nonoptEnd := if s.nonoptStart.Some? && s.nonoptEnd.None? then Some(s.optind) else s.nonoptEnd,
                    optind := s.optind + 1)
    ensures u.Valid()
    ensures u.Opts() == s.Opts() + [s.argv[s.optind]] && u.Nons() == s.Nons()
    ensures u.place == "" && u.reset == s.reset
    ensures u.argv[u.optind..] == s.argv[s.optind..][1..]
  {
    u := s.(nonoptEnd := if s.nonoptStart.Some? && s.nonoptEnd.None? then Some(s.optind) else s.nonoptEnd,
            optind := s.optind + 1);
    var from := if s.nonoptStart.None? then 0 else if s.nonoptEnd.None? then s.optind else s.nonoptEnd.value;
    Snoc(s.argv, from, s.optind);
    if s.nonoptStart.Some? {
      Sequences.Regroup(s.argv[..s.nonoptStart.value], s.argv[from..s.optind], [s.argv[s.optind]]);
    }
  }

  lemma Snoc(v: seq<string>, from: nat, to: nat)
    requires from <= to < |v|
    ensures v[from..to + 1] == v[from..to] + [v[to]]
    ensures from == to ==> v[from..to] == []
    ensures v[to..][1..] == v[to + 1..]
    ensures v[0..to] == v[..to] && v[0..to + 1] == v[..to + 1]
  {}

  lemma FetchAtOption(cfg: Config, s: State)
    requires s.Valid() && s.place == "" && !s.reset && NoReservedValue(cfg)
    requires s.optind < |s.argv| && !NonOption(cfg, s.argv[s.optind]) && s.argv[s.optind] != "--"
    ensures FetchAgrees(cfg, s.Opts(), s.Nons(), Fetch(cfg, s), Scan(cfg, s.argv[s.optind..], ""))
  {
    var t := Fetch(cfg, s).state;
    assert t.Valid();
    if s.nonoptEnd.None? && s.nonoptStart.Some? {
      assert s.argv[s.optind..s.optind] == [];
    }
    assert t.Opts() == s.Opts() && t.Nons() == s.Nons();
  }

  /** Finishing makes the vector options, non-options, unread rest. */
  lemma FinishRepresents(s: State)
    requires s.Valid()
    ensures var t := Finish(s);
      && t.argv == s.Opts() + s.Nons() + s.argv[s.optind..]
      && t.optind == |s.Opts()|
      && t.nonoptStart.None? && t.nonoptEnd.None? && t.place == s.place && t.reset == s.reset
  {}

  lemma CallProgress(cfg: Config, s: State)
    requires s.Valid() && !s.reset && NoReservedValue(cfg)
    ensures var (t, e) := Call(cfg, s);
      && |t.argv| == |s.argv| && !t.reset
      && (e.ret != -1 ==>
            && t.Valid()
            && s.optind <= t.optind
            && (t.optind == s.optind ==> Weight(t.argv[t.optind..], t.place) < Weight(s.argv[s.optind..], s.place)))
  {
    FetchShape(cfg, s);
    FetchValid(cfg, s);
    var f := if s.place == "" then Fetch(cfg, s) else Process(s, false);
    if f.Process? {
      var t := f.state;
      ElementProgress(cfg, t.argv[t.optind..], t.place, f.whole);
    }
  }

  lemma {:induction false} FetchShape(cfg: Config, s: State)
    requires s.Valid() && !s.reset
    ensures s.place == "" ==>
      var f := Fetch(cfg, s);
      && |f.state.argv| == |s.argv| && !f.state.reset && (f.Stop? && f.event.ret != -1 ==> f.state.Valid())
      && (f.Stop? && f.event.ret != -1 ==> f.state.optind > s.optind)
      && (f.Process? ==> f.state.optind >= s.optind)
      && (f.Process? && f.state.optind == s.optind ==> f.state.argv == s.argv && |f.state.place| <= |s.argv[s.optind]|)
    decreases |s.argv| - s.optind
  {
    if s.place == "" && s.optind < |s.argv| && NonOption(cfg, s.argv[s.optind]) && !cfg.allArgs && cfg.permute {
      FetchShape(cfg, AfterSkip(s));
    }
  }

  /** The program's loop: call until -1, collecting the events. */
  function Run(cfg: Config, s: State): (State, seq<Event>)
    requires s.Valid() && !s.reset && NoReservedValue(cfg)
    decreases |s.argv| - s.optind, Weight(s.argv[s.optind..], s.place)
  {
    CallProgress(cfg, s);
    var (t, e) := Call(cfg, s);
    if e.ret == -1 then (t, [])
    else
      var (u, es) := Run(cfg, t);
      (u, [e] + es)
  }

  /** The outcome of a run, against the scan r of what its start had not read. */
  ghost predicate RunAgrees(opts: seq<string>, nons: seq<string>, t: State, es: seq<Event>, r: Scanned) {
    && es == r.events
    && (!r.stray ==>
          && t.argv == (opts + r.opts) + (nons + r.nons) + r.rest
          && t.optind == |opts| + |r.opts|
          && t.nonoptStart.None? && t.nonoptEnd.None? && t.place == "")
  }

  lemma {:induction false} RunIsScanFrom(cfg: Config, s: State)
    requires s.Valid() && !s.reset
    requires cfg.permute && !cfg.allArgs && NoReservedValue(cfg)
    ensures RunAgrees(s.Opts(), s.Nons(), Run(cfg, s).0, Run(cfg, s).1, Scan(cfg, s.argv[s.optind..], s.place))
    decreases |s.argv| - s.optind, Weight(s.argv[s.optind..], s.place), 1
  {
    if s.place == "" {
      FetchIsScan(cfg, s);
      var f := Fetch(cfg, s);
      if f.Process? {
        FetchValid(cfg, s);
        FetchShape(cfg, s);
        RunFromElement(cfg, s, f.state, f.whole);
      }
    } else {
      RunFromElement(cfg, s, s, false);
    }
  }

  /** s is about to process the option it shows as t. */
  ghost predicate Processes(cfg: Config, s: State, t: State, whole: bool) {
    && s.Valid() && !s.reset
    && (if s.place == "" then Fetch(cfg, s) == Process(t, whole) else t == s && !whole)
    && t.Valid() && t.place != "" && !t.reset && |t.argv| == |s.argv| && s.optind <= t.optind
    && (t.optind == s.optind ==> |t.place| <= Weight(s.argv[s.optind..], s.place))
    && (t.nonoptStart.Some? ==> t.nonoptEnd.Some?)
  }

  lemma CallProcesses(cfg: Config, s: State, t: State, whole: bool) returns (o: Outcome)
    requires Processes(cfg, s, t, whole)
    ensures o == Element(cfg, t.argv[t.optind..], t.place, whole)
    ensures Call(cfg, s) == (t.(optind := t.optind + o.consumed, place := o.place), o.event)
  {
    o := Element(cfg, t.argv[t.optind..], t.place, whole);
  }

  lemma {:induction false} RunFromElement(cfg: Config, s: State, t: State, whole: bool)
    requires cfg.permute && !cfg.allArgs && NoReservedValue(cfg)
    requires Processes(cfg, s, t, whole)
    ensures RunAgrees(t.Opts(), t.Nons(), Run(cfg, s).0, Run(cfg, s).1,
                      ScanElement(cfg, t.argv[t.optind..], t.place, whole))
    decreases |s.argv| - s.optind, Weight(s.argv[s.optind..], s.place), 0
  {
    var tail := t.argv[t.optind..];
    ElementProgress(cfg, tail, t.place, whole);
    var o := CallProcesses(cfg, s, t, whole);
    if o.event.ret != -1 {
      CallProgress(cfg, s);
      ConsumeRepresents(t, o);
      var u := Call(cfg, s).0;
      RunIsScanFrom(cfg, u);
      RunAgreesElement(t.Opts(), tail[..o.consumed], t.Nons(), Run(cfg, u).0, Run(cfg, u).1,
                       Scan(cfg, tail[o.consumed..], o.place), o.event);
    }
  }

  lemma RunAgreesElement(opts: seq<string>, more: seq<string>, nons: seq<string>, t: State, es: seq<Event>,
                         q: Scanned, e: Event)
    requires RunAgrees(opts + more, nons, t, es, q)
    ensures RunAgrees(opts, nons, t, [e] + es, q.(events := [e] + q.events, opts := more + q.opts))
  {}

  lemma Consumed(v: seq<string>, from: nat, to: nat, n: nat)
    requires from <= to && to + n <= |v|
    ensures v[from..to + n] == v[from..to] + v[to..][..n]
    ensures v[to..][n..] == v[to + n..]
    ensures v[0..to] == v[..to] && v[0..to + n] == v[..to + n]
  {}

  lemma ConsumeRepresents(t: State, o: Outcome)
    requires t.Valid() && (t.nonoptStart.Some? ==> t.nonoptEnd.Some?)
    requires t.optind + o.consumed <= |t.argv|
    requires o.consumed == 0 ==> 0 < |o.place| <= |t.place|
    requires o.consumed > 0 ==> o.place == ""
    ensures var tail := t.argv[t.optind..];
            Represents(t.(optind := t.optind + o.consumed, place := o.place),
                       tail[o.consumed..], t.Opts() + tail[..o.consumed], t.Nons())
  {
    var u := t.(optind := t.optind + o.consumed, place := o.place);
    assert u.Valid();
    Consumed(t.argv, if t.nonoptStart.Some? then t.nonoptEnd.value else 0, t.optind, o.consumed);
    if t.nonoptStart.Some? {
      Sequences.Regroup(t.argv[..t.nonoptStart.value], t.argv[t.nonoptEnd.value..t.optind],
                        t.argv[t.optind..][..o.consumed]);
    }
  }

  /** Main theorem. In permute mode the calls up to -1 report exactly what a scan
      of the untouched vector reports, and leave the program name, then the options
      with their arguments, then the non-options, then what followed "--", each in
      its original order, with optind at the first non-option. */
  lemma RunIsScan(cfg: Config, argv: seq<string>)
    requires |argv| >= 1
    requires cfg.permute && !cfg.allArgs && NoReservedValue(cfg)
    requires cfg.longs.Some? || '-' in cfg.letters
    ensures Initial(argv).Valid()
    ensures var r := Scan(cfg, argv[1..], "");
            var (t, es) := Run(cfg, Initial(argv));
      && es == r.events
      && t.argv == [argv[0]] + r.opts + r.nons + r.rest
      && t.optind == 1 + |r.opts|
      && ScanSorts(cfg, argv[1..], r) && !r.stray
  {
    RunIsScanFrom(cfg, Initial(argv));
    NeverStray(cfg, argv[1..], "");
    ScanPartitions(cfg, argv[1..], "");
    var r := Scan(cfg, argv[1..], "");
    InitialRepresents(argv, r.opts, r.nons, r.rest);
  }

  lemma InitialRepresents(argv: seq<string>, o: seq<string>, n: seq<string>, r: seq<string>)
    requires |argv| >= 1
    ensures Initial(argv).Valid() && Initial(argv).Opts() == [argv[0]] && Initial(argv).Nons() == []
    ensures ([argv[0]] + o) + ([] + n) + r == [argv[0]] + o + n + r
  {}

  /** No run loses or duplicates an argument. */
  lemma RunIsPermutation(cfg: Config, argv: seq<string>)
    requires |argv| >= 1
    requires cfg.permute && !cfg.allArgs && NoReservedValue(cfg)
    requires cfg.longs.Some? || '-' in cfg.letters
    ensures Initial(argv).Valid() && multiset(Run(cfg, Initial(argv)).0.argv) == multiset(argv)
  {
    RunIsScan(cfg, argv);
    var r := Scan(cfg, argv[1..], "");
    PartitionIsPermutation(argv[1..], r.opts, r.nons, r.rest);
    assert argv == [argv[0]] + argv[1..];
    MultisetOf4([argv[0]], r.opts, r.nons, r.rest);
  }

  lemma MultisetOf4(a: seq<string>, b: seq<string>, c: seq<string>, d: seq<string>)
    ensures multiset(a + b + c + d) == multiset(a) + (multiset(b) + multiset(c) + multiset(d))
  {}

  lemma {:induction false} LabelledMultiset(s: seq<string>, labels: seq<bool>)
    requires |labels| == |s|
    ensures multiset(Labelled(s, labels, true)) + multiset(Labelled(s, labels, false)) == multiset(s)
  {
    if s != [] {
      var t, f := Labelled(s[1..], labels[1..], true), Labelled(s[1..], labels[1..], false);
      LabelledMultiset(s[1..], labels[1..]);
      assert s == [s[0]] + s[1..];
      if labels[0] {
        assert Labelled(s, labels, true) == [s[0]] + t;
        assert Labelled(s, labels, false) == [] + f == f;
      } else {
        assert Labelled(s, labels, false) == [s[0]] + f;
        assert Labelled(s, labels, true) == [] + t == t;
      }
    }
  }

  lemma PartitionIsPermutation(tail: seq<string>, opts: seq<string>, nons: seq<string>, rest: seq<string>)
    requires StablePartition(tail, opts, nons, rest)
    ensures multiset(opts) + multiset(nons) + multiset(rest) == multiset(tail)
  {
    var labels :| PartitionBy(tail, labels, opts, nons, rest);
    LabelledMultiset(tail[..|labels|], labels);
    assert tail == tail[..|labels|] + tail[|labels|..];
  }

  /** Without long options and without '-' among the letters the promise fails for
      some vector, whatever the letters are: the run over { p, f, -:- } ends with
      the non-option f still in front of the option -:- . */
  lemma StrayDash(cfg: Config)
    requires cfg.permute && !cfg.allArgs && cfg.longs.None? && '-' !in cfg.letters
    ensures var argv := ["p", "f", "-:-"];
            Initial(argv).Valid() && Run(cfg, Initial(argv)).0.argv == argv
            && Run(cfg, Initial(argv)).0.optind == 2
            && NonOption(cfg, argv[1]) && !NonOption(cfg, argv[2])
  {
    var argv := ["p", "f", "-:-"];
    var s := Initial(argv);
    assert s.Valid();
    var s1 := AfterSkip(s);
    assert s1 == State(argv, 2, "", Some(1), None, false);
    var s2 := State(argv, 2, ":-", Some(1), Some(2), false);
    assert argv[2][1..] == ":-";
    assert Fetch(cfg, s1) == Process(s2, false);
    assert Fetch(cfg, s) == Fetch(cfg, s1);
    var s3 := s2.(place := "-");
    assert ":-"[1..] == "-";
    assert Call(cfg, s).0 == s3 && Call(cfg, s).1.ret == BADCH;
    assert s3.Valid();
    assert Call(cfg, s3).1.ret == -1 && Call(cfg, s3).0 == s3.(place := "");
    assert Run(cfg, s3).0 == s3.(place := "");
  }

  /** What a run in permute mode promises for a vector: behind the program name first
      the options with their arguments, then the non-options, then what followed "--",
      each in its original order, and optind at the first non-option. */
  ghost predicate Sorts(cfg: Config, argv: seq<string>)
    requires NoReservedValue(cfg)
  {
    |argv| >= 1 ==>
      && Initial(argv).Valid()
      && exists opts, nons, rest :: SortedInto(cfg, argv, Run(cfg, Initial(argv)).0, opts, nons, rest)
  }

  ghost predicate SortedInto(cfg: Config, argv: seq<string>, t: State, opts: seq<string>, nons: seq<string>,
                             rest: seq<string>)
    requires |argv| >= 1
  {
    && StablePartition(argv[1..], opts, nons, rest)
    && t.argv == [argv[0]] + opts + nons + rest && t.optind == 1 + |opts|
    && (forall a :: a in nons ==> NonOption(cfg, a))
    && (rest != [] ==> EndsInDashes(opts))
  }

  /** The promise holds for every vector exactly when there are long options or '-' is
      among the option letters. */
  lemma PromiseExactly(cfg: Config)
    requires cfg.permute && !cfg.allArgs && NoReservedValue(cfg)
    ensures (forall argv :: Sorts(cfg, argv)) <==> cfg.longs.Some? || '-' in cfg.letters
  {
    if cfg.longs.Some? || '-' in cfg.letters {
      forall argv ensures Sorts(cfg, argv) {
        if |argv| >= 1 {
          RunIsScan(cfg, argv);
          var r := Scan(cfg, argv[1..], "");
          assert SortedInto(cfg, argv, Run(cfg, Initial(argv)).0, r.opts, r.nons, r.rest);
        }
      }
    } else {
      var argv := ["p", "f", "-:-"];
      StrayDash(cfg);
      NotSorted(cfg, argv, Run(cfg, Initial(argv)).0);
      assert !Sorts(cfg, argv);
    }
  }

  lemma NotSorted(cfg: Config, argv: seq<string>, t: State)
    requires argv == ["p", "f", "-:-"] && t.argv == argv && t.optind == 2 && !NonOption(cfg, argv[2])
    ensures !exists opts, nons, rest :: SortedInto(cfg, argv, t, opts, nons, rest)
  {}

  /** getopt_long passes a table of long options, so unless the options string or
      POSIXLY_CORRECT turns permutation off, its promise holds for every vector. */
  lemma GetoptLongSorts(options: string, longs: seq<LongOption>, argv: seq<string>)
    requires options == "" || (options[0] != '-' && options[0] != '+')
    requires NoReservedValue(Configure(options, Some(longs), true, false, false))
    ensures Sorts(Configure(options, Some(longs), true, false, false), argv)
  {
    PromiseExactly(Configure(options, Some(longs), true, false, false));
  }
}
