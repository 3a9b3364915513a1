/** getopt.c's scanner as it is written: static variables updated across calls
    and an argument vector permuted in place. Every method is tied to the
    functions of module Getopt. */
module GetoptScanner {
  import opened Wrappers
  import opened Getopt
  import Permute

  class Scanner {
    const argv: array<string>
    var optind: nat
    var optarg: Option<string>
    var optopt: int
    var optreset: bool
    var place: string
    var nonoptStart: Option<nat>
    var nonoptEnd: Option<nat>
    var longIndex: Option<nat>      // *idx of the caller
    var flags: map<nat, int>        // the variables named by long options

    constructor (argv: array<string>)
      ensures this.argv == argv && Model() == Initial(argv[..])
    {
      this.argv := argv;
      optind := 1;
      optarg := None;
      optopt := '?' as int;
      optreset := false;
      place := "";
      nonoptStart, nonoptEnd := None, None;
      longIndex, flags := None, map[];
    }

    /** optind 0 is the caller's other way of asking for a reset. */
    ghost function Model(): State
      reads this, argv
    {
      State(argv[..], if optind == 0 then 1 else optind, place, nonoptStart, nonoptEnd, optreset || optind == 0)
    }

    /** The visible effects of event e on the scanner's variables. */
    twostate predicate Reported(ret: int, e: Event)
      reads this
    {
      && ret == e.ret
      && optarg == e.optarg
      && optopt == (if e.optopt.Some? then e.optopt.value else old(optopt))
      && longIndex == (if e.longIndex.Some? then e.longIndex else old(longIndex))
      && flags == (if e.store.Some? then old(flags)[e.store.value.0 := e.store.value.1] else old(flags))
    }

    method FindLongOption(longs: seq<LongOption>, key: string, shortToo: bool) returns (r: Match)
      ensures r == MatchLong(longs, key, shortToo)
    {
      var found: Option<nat> := None;
      var ambiguous := false;
      var i := 0;
      while i < |longs|
        invariant i <= |longs|
        invariant found.Some? ==> found.value < |longs|
        invariant MatchFrom(longs, key, shortToo, i, found, ambiguous) == MatchLong(longs, key, shortToo)
      {
        if key <= longs[i].name {
          if |longs[i].name| == |key| {
            return Found(i);
          }
          if !(shortToo && |key| == 1) {
            if found.None? {
              found := Some(i);
            } else if !Identical(longs[i], longs[found.value]) {
              ambiguous := true;
            }
          }
        }
        i := i + 1;
      }
      r := if ambiguous then Ambiguous else if found.Some? then Found(found.value) else NoMatch;
    }

    /** parse_long_options: place is the text after the dashes. */
    method ParseLongOptions(cfg: Config, shortToo: bool) returns (ret: int)
      requires cfg.longs.Some? && NoReservedValue(cfg)
      requires optind < argv.Length && optarg == None
      modifies this`optind, this`optarg, this`optopt, this`longIndex, this`flags
      ensures match ParseLong(cfg, cfg.longs.value, place, At(argv[..], old(optind) + 1), shortToo)
              case None => ret == -1 && optind == old(optind) && Reported(ret, Plain(-1, None))
              case Some(o) => ret != -1 && optind == old(optind) + o.consumed && Reported(ret, o.event)
    {
      var longs := cfg.longs.value;
      optind := optind + 1;
      var hasEqual := IndexOf(place, '=');
      var key := if hasEqual.Some? then place[..hasEqual.value] else place;
      var m := FindLongOption(longs, key, shortToo);
      match m {
        case Ambiguous =>
          optopt := 0;
          ret := BADCH;
        case NoMatch =>
          if shortToo {
            optind := optind - 1;
            ret := -1;
          } else {
            optopt := 0;
            ret := BADCH;
          }
        case Found(i) =>
          assert longs[i] in longs;
          ret := TakeLongOption(cfg, i, longs[i], if hasEqual.Some? then Some(place[hasEqual.value + 1..]) else None);
      }
    }

    /** The rest of parse_long_options, once row i has been chosen. */
    method TakeLongOption(cfg: Config, i: nat, o: LongOption, hasEqual: Option<string>) returns (ret: int)
      requires 0 < optind <= argv.Length && optarg == None
      modifies this`optind, this`optarg, this`optopt, this`longIndex, this`flags
      ensures var next := At(argv[..], old(optind));
              if (o.hasArg.NoArgument? && hasEqual.Some?) ||
                 (o.hasArg.RequiredArgument? && hasEqual.None? && next.None?) then
                && optind == old(optind)
                && Reported(ret, Complaint(BadArg(cfg), if o.flag.None? then o.val else 0))
              else
                var arg := if o.hasArg.NoArgument? then None
                           else if hasEqual.Some? then hasEqual
                           else if o.hasArg.RequiredArgument? then next else None;
                && optind == old(optind) + (if o.hasArg.RequiredArgument? && hasEqual.None? then 1 else 0)
                && Reported(ret, match o.flag
                                 case None => Event(o.val, arg, None, Some(i), None)
                                 case Some(v) => Event(0, arg, None, Some(i), Some((v, o.val))))
    {
      if o.hasArg.NoArgument? && hasEqual.Some? {
        optopt := if o.flag.None? then o.val else 0;
        return BadArg(cfg);
      }
      if o.hasArg.RequiredArgument? || o.hasArg.OptionalArgument? {
        if hasEqual.Some? {
          optarg := hasEqual;
        } else if o.hasArg.RequiredArgument? {
          optarg := At(argv[..], optind);   // argv[argc] is NULL
          optind := optind + 1;
        }
      }
      if o.hasArg.RequiredArgument? && optarg.None? {
        optopt := if o.flag.None? then o.val else 0;
        optind := optind - 1;
        return BadArg(cfg);
      }
      longIndex := Some(i);
      if o.flag.Some? {
        flags := flags[o.flag.value := o.val];
        return 0;
      }
      return o.val;
    }

    /** The letter part of getopt_internal. */
    method ParseShortOption(cfg: Config) returns (ret: int)
      requires NoReservedValue(cfg)
      requires optind < argv.Length && place != "" && optarg == None
      modifies this`optind, this`optarg, this`optopt, this`longIndex, this`flags, this`place
      ensures var o := ShortOption(cfg, argv[..][old(optind)..], old(place));
              optind == old(optind) + o.consumed && place == o.place && Reported(ret, o.event)
    {
      var optchar := place[0];
      place := place[1..];
      var oli := IndexOf(cfg.letters, optchar);
      if optchar == ':' || (optchar == '-' && place != "") || oli.None? {
        if optchar == '-' && place == "" {
          return -1;
        }
        if place == "" {
          optind := optind + 1;
        }
        optopt := optchar as int;
        return BADCH;
      }
      var k := oli.value;
      if cfg.longs.Some? && optchar == 'W' && LetterAt(cfg.letters, k + 1, ';') {
        ret := ParseLongAfterW(cfg);
        return ret;
      }
      if !LetterAt(cfg.letters, k + 1, ':') {
        if place == "" {
          optind := optind + 1;
        }
        return optchar as int;
      }
      ret := TakeArgument(cfg, optchar, LetterAt(cfg.letters, k + 2, ':'));
    }

    /** -W long-option: the text follows in place or is the next argument. */
    method ParseLongAfterW(cfg: Config) returns (ret: int)
      requires cfg.longs.Some? && NoReservedValue(cfg)
      requires optind < argv.Length && optarg == None
      modifies this`optind, this`optarg, this`optopt, this`longIndex, this`flags, this`place
      ensures place == ""
      ensures var tail := argv[..][old(optind)..];
              if old(place) == "" && |tail| < 2 then
                optind == old(optind) + 1 && Reported(ret, Complaint(BadArg(cfg), 'W' as int))
              else
                var late := old(place) == "";
                var o := ParseLong(cfg, cfg.longs.value, if late then tail[1] else old(place),
                                   At(tail, if late then 2 else 1), false).value;
                optind == old(optind) + o.consumed + (if late then 1 else 0) && Reported(ret, o.event)
    {
      if place == "" {
        optind := optind + 1;
        if optind >= argv.Length {
          optopt := 'W' as int;
          return BadArg(cfg);
        }
        place := argv[optind];
      }
      ret := ParseLongOptions(cfg, false);
      place := "";
    }

    /** An option letter that takes an argument. */
    method TakeArgument(cfg: Config, optchar: char, optional: bool) returns (ret: int)
      requires optind < argv.Length && optarg == None
      modifies this`optind, this`optarg, this`optopt, this`place
      ensures place == ""
      ensures var tail := argv[..][old(optind)..];
              if old(place) != ""
              then optind == old(optind) + 1 && Reported(ret, Plain(optchar as int, Some(old(place))))
              else if optional then optind == old(optind) + 1 && Reported(ret, Plain(optchar as int, None))
              else if |tail| < 2 then optind == old(optind) + 1 && Reported(ret, Complaint(BadArg(cfg), optchar as int))
              else optind == old(optind) + 2 && Reported(ret, Plain(optchar as int, Some(tail[1])))
    {
      if place != "" {
        optarg := Some(place);
      } else if !optional {
        optind := optind + 1;
        if optind >= argv.Length {
          place := "";
          optopt := optchar as int;
          return BadArg(cfg);
        }
        optarg := Some(argv[optind]);
      }
      place := "";
      optind := optind + 1;
      return optchar as int;
    }

    /** The part of getopt_internal after an option has been fetched. */
    method ParseOption(cfg: Config, whole: bool) returns (ret: int)
      requires NoReservedValue(cfg)
      requires optind < argv.Length && place != "" && optarg == None
      modifies this`optind, this`optarg, this`optopt, this`longIndex, this`flags, this`place
      ensures var o := Element(cfg, argv[..][old(optind)..], old(place), whole);
              optind == old(optind) + o.consumed && place == o.place && Reported(ret, o.event)
    {
      if cfg.longs.Some? && !whole && (place[0] == '-' || cfg.longOnly) {
        var all := place;
        var shortToo := false;
        if place[0] == '-' {
          place := place[1..];
        } else if place[0] != ':' && place[0] in cfg.letters {
          shortToo := true;
        }
        ret := ParseLongOptions(cfg, shortToo);
        if ret != -1 {
          place := "";
          return ret;
        }
        assert place == all;
      }
      ret := ParseShortOption(cfg);
    }

    method MoveNonOptions()
      requires 0 < optind <= argv.Length
      requires nonoptStart.Some? && nonoptEnd.Some? && nonoptStart.value < nonoptEnd.value < optind
      modifies argv
      ensures Model() == MoveNons(old(Model()))
    {
      Permute.PermuteArgs(nonoptStart.value, nonoptEnd.value, optind, argv);
    }

    /** Skip the non-option at optind, moving an earlier block of them up to it. */
    method SkipNonOption()
      requires 0 < optind < argv.Length && !optreset && place == "" && Model().Valid()
      modifies this`nonoptStart, this`nonoptEnd, this`optind, argv
      ensures Model() == AfterSkip(old(Model())) && optind == old(optind) + 1
    {
      if nonoptStart.None? {
        nonoptStart := Some(optind);
      } else if nonoptEnd.Some? {
        MoveNonOptions();
        nonoptStart := Some(optind - (nonoptEnd.value - nonoptStart.value));
        nonoptEnd := None;
      }
      optind := optind + 1;
    }

    /** The loop made by "goto start": stop at the next option or at the end, or
        return at once if non-options are not to be skipped. */
    method SkipNonOptions(cfg: Config) returns (ret: Option<int>)
      requires optind > 0 && !optreset && place == "" && optarg == None && Model().Valid()
      modifies this`optind, this`optarg, this`nonoptStart, this`nonoptEnd, argv
      ensures 0 < optind <= argv.Length
      ensures ret.None? ==> Model().Valid() && Fetch(cfg, Model()) == Fetch(cfg, old(Model())) && optarg == None
      ensures ret.None? ==> optind == argv.Length || !NonOption(cfg, argv[optind])
      ensures ret.Some? ==> Fetch(cfg, old(Model())) == Stop(Model(), Plain(ret.value, optarg))
    {
      ghost var f := Fetch(cfg, Model());
      while optind < argv.Length && NonOption(cfg, argv[optind])
        invariant 0 < optind <= argv.Length && optarg == None
        invariant Model().Valid() && Fetch(cfg, Model()) == f
        decreases argv.Length - optind
      {
        if cfg.allArgs {
          optarg := Some(argv[optind]);
          optind := optind + 1;
          return Some(INORDER);
        }
        if !cfg.permute {
          return Some(-1);
        }
        ghost var s := Model();
        SkipNonOption();
        assert Fetch(cfg, s) == Fetch(cfg, AfterSkip(s));
      }
      return None;
    }

    /** The code under the label start: Some is the value to return at once, None
        means that place is the text of an option to process. */
    method FetchOption(cfg: Config) returns (ret: Option<int>, whole: bool)
      requires optind > 0 && !optreset && place == "" && optarg == None && Model().Valid()
      modifies this`optind, this`optarg, this`place, this`nonoptStart, this`nonoptEnd, argv
      ensures optind > 0
      ensures match Fetch(cfg, old(Model()))
              case Stop(t, e) => Model() == t && ret.Some? && e == Plain(ret.value, optarg)
              case Process(t, w) => Model() == t && ret == None && whole == w && optarg == None
    {
      whole := false;
      ret := SkipNonOptions(cfg);
      if ret.None? {
        if optind == argv.Length {
          FinishScan();
          ret := Some(-1);
        } else {
          ret, whole := FetchHere(cfg);
        }
      }
    }

    /** An option is at optind: take its text, or end the scan at "--". */
    method FetchHere(cfg: Config) returns (ret: Option<int>, whole: bool)
      requires 0 < optind < argv.Length && !optreset && place == "" && Model().Valid()
      requires !NonOption(cfg, argv[optind])
      modifies this`optind, this`place, this`nonoptStart, this`nonoptEnd, argv
      ensures optind > 0
      ensures match Fetch(cfg, old(Model()))
              case Stop(t, e) => Model() == t && ret == Some(e.ret) && e == Plain(-1, None)
              case Process(t, w) => Model() == t && ret == None && whole == w
    {
      if nonoptStart.Some? && nonoptEnd.None? {
        nonoptEnd := Some(optind);
      }
      place := argv[optind];
      whole := |place| == 1;
      if |place| > 1 {
        place := place[1..];
        if place == "-" {
          assert argv[optind] == "--";
          optind := optind + 1;
          place := "";
          FinishScan();
          return Some(-1), false;
        }
      }
      return None, whole;
    }

    method FinishScan()
      requires 0 < optind <= argv.Length && Model().Valid() && place == ""
      modifies this`optind, this`nonoptStart, this`nonoptEnd, argv
      ensures optind > 0
      ensures Model() == Finish(old(Model()))
    {
      if nonoptEnd.Some? {
        MoveNonOptions();
        optind := optind - (nonoptEnd.value - nonoptStart.value);
      } else if nonoptStart.Some? {
        optind := nonoptStart.value;
      }
      nonoptStart, nonoptEnd := None, None;
    }

    method RestartIfAsked()
      requires Model().Valid()
      modifies this`optind, this`optreset, this`place, this`nonoptStart, this`nonoptEnd, this`optarg
      ensures Model() == Restarted(old(Model())) && optind > 0 && !optreset && optarg == None
    {
      if optind == 0 {
        optind := 1;
        optreset := true;
      }
      optarg := None;
      if optreset {
        nonoptStart, nonoptEnd := None, None;
        optreset := false;
        place := "";
      }
    }

    /** getopt_internal: one call is one step of the state machine. */
    method GetoptInternal(cfg: Config) returns (ret: int)
      requires Model().Valid() && NoReservedValue(cfg)
      modifies this, argv
      ensures Model() == Call(cfg, old(Model())).0
      ensures Reported(ret, Call(cfg, old(Model())).1)
    {
      RestartIfAsked();
      ret := ScanOne(cfg);
    }

    method ScanOne(cfg: Config) returns (ret: int)
      requires Model().Valid() && NoReservedValue(cfg) && optind > 0 && !optreset && optarg == None
      modifies this, argv
      ensures Model() == Call(cfg, old(Model())).0
      ensures Reported(ret, Call(cfg, old(Model())).1)
    {
      ghost var s := Model();
      var whole := false;
      if place == "" {
        FetchValid(cfg, s);
        var now;
        now, whole := FetchOption(cfg);
        if now.Some? {
          return now.value;
        }
      }
      ret := ParseOption(cfg, whole);
    }

    /** getopt_long: one call in permute mode. */
    method GetoptLong(options: string, longs: seq<LongOption>, posixlyCorrect: bool) returns (ret: int)
      requires Model().Valid() && NoReservedValue(Configure(options, Some(longs), true, false, posixlyCorrect))
      modifies this, argv
      ensures Model() == Call(Configure(options, Some(longs), true, false, posixlyCorrect), old(Model())).0
      ensures Reported(ret, Call(Configure(options, Some(longs), true, false, posixlyCorrect), old(Model())).1)
    {
      ret := GetoptInternal(Configure(options, Some(longs), true, false, posixlyCorrect));
    }

    /** A program's option loop: what the calls return, with the argument each one sets. */
    method ParseAll(cfg: Config) returns (rets: seq<int>, optargs: seq<Option<string>>)
      requires Model().Valid() && optind > 0 && !optreset && NoReservedValue(cfg)
      modifies this, argv
      ensures Model() == Run(cfg, old(Model())).0
      ensures |rets| == |optargs| == |Run(cfg, old(Model())).1|
      ensures forall k :: 0 <= k < |rets| ==>
        rets[k] == Run(cfg, old(Model())).1[k].ret && optargs[k] == Run(cfg, old(Model())).1[k].optarg
    {
      rets, optargs := [], [];
      ghost var s0 := Model();
      ghost var es: seq<Event> := [];
      RunsOnStart(cfg, s0);
      while true
        invariant optind > 0 && RunsOn(cfg, s0, es, Model())
        invariant |rets| == |optargs| == |es|
        invariant forall k :: 0 <= k < |rets| ==> rets[k] == es[k].ret && optargs[k] == es[k].optarg
        decreases |Model().argv| - Model().optind, Weight(Model().argv[Model().optind..], Model().place)
      {
        ghost var s := Model();
        RunsOnStep(cfg, s0, es, s);
        var ret := GetoptInternal(cfg);
        if ret == -1 {
          return;
        }
        rets, optargs, es := rets + [ret], optargs + [optarg], es + [Call(cfg, s).1];
      }
    }
  }

  /** The run from s0 has reported es so far and goes on from s. */
  ghost predicate RunsOn(cfg: Config, s0: State, es: seq<Event>, s: State) {
    && NoReservedValue(cfg) && s0.Valid() && !s0.reset && s.Valid() && !s.reset
    && Run(cfg, s0).0 == Run(cfg, s).0
    && Run(cfg, s0).1 == es + Run(cfg, s).1
  }

  lemma RunsOnStart(cfg: Config, s: State)
    requires NoReservedValue(cfg) && s.Valid() && !s.reset
    ensures RunsOn(cfg, s, [], s)
  {}

  lemma RunsOnStep(cfg: Config, s0: State, es: seq<Event>, s: State)
    requires RunsOn(cfg, s0, es, s)
    ensures var (t, e) := Call(cfg, s);
      && !t.reset
      && (e.ret == -1 ==> Run(cfg, s0) == (t, es))
      && (e.ret != -1 ==> RunsOn(cfg, s0, es + [e], t))
      && (e.ret != -1 ==> |t.argv| - t.optind < |s.argv| - s.optind
                          || (|t.argv| - t.optind == |s.argv| - s.optind
                              && Weight(t.argv[t.optind..], t.place) < Weight(s.argv[s.optind..], s.place)))
  {
    CallProgress(cfg, s);
    var (t, e) := Call(cfg, s);
    if e.ret == -1 {
      assert es + [] == es;
    } else {
      assert es + ([e] + Run(cfg, t).1) == (es + [e]) + Run(cfg, t).1;
    }
  }
}
