/** Command lines as their users write them: what each way of writing an option means,
    and that a run reports exactly what was written. */
module GetoptWritten {
  import opened Wrappers
  import opened Getopt
  import Sequences

  // ---------- long options ----------

  /** What a long option reports: its value, or zero with its variable set, the row of
      the table and the argument. */
  function LongEvent(o: LongOption, i: nat, arg: Option<string>): Event {
    Event(if o.flag.None? then o.val else 0, arg, None, Some(i),
          if o.flag.None? then None else Some((o.flag.value, o.val)))
  }

  /** What a missing or an unwanted argument reports; code is the option's. */
  function ArgumentComplaint(letters: string, code: int): Event {
    Event(if letters != "" && letters[0] == ':' then ':' as int else '?' as int, None, Some(code), None, None)
  }

  lemma {:induction false} FirstPlace(front: string, c: char, back: string)
    requires c !in front
    ensures IndexOf(front + ([c] + back), c) == Some(|front|)
  {
    if front != "" {
      FirstPlace(front[1..], c, back);
      Sequences.AppendTail(front, [c] + back);
    }
  }

  lemma FirstEqual(name: string, value: string)
    requires '=' !in name
    ensures var s := name + ("=" + value);
      IndexOf(s, '=') == Some(|name|) && s[..|name|] == name && s[|name| + 1..] == value
    ensures IndexOf(name, '=') == None
  {
    FirstPlace(name, '=', value);
  }

  /** name=value and name alone, where name means row i: an attached argument is reported
      without its equals sign, a required one is otherwise the next entry, an optional one
      is not. */
  lemma LongForms(cfg: Config, longs: seq<LongOption>, name: string, value: string, next: Option<string>,
                  shortToo: bool, i: nat)
    requires '=' !in name && MatchLong(longs, name, shortToo) == Found(i)
    ensures var o := longs[i];
            var complaint := Outcome(ArgumentComplaint(cfg.letters, if o.flag.None? then o.val else 0), 1, "");
      && ParseLong(cfg, longs, name + ("=" + value), next, shortToo) ==
         Some(if o.hasArg == NoArgument then complaint else Outcome(LongEvent(o, i, Some(value)), 1, ""))
      && ParseLong(cfg, longs, name, next, shortToo) ==
         Some(if o.hasArg != RequiredArgument then Outcome(LongEvent(o, i, None), 1, "")
              else if next == None then complaint
              else Outcome(LongEvent(o, i, next), 2, ""))
  {
    FirstEqual(name, value);
  }

  /** An unknown name, unless it may be letters, or an ambiguous one. */
  lemma LongUnknown(cfg: Config, longs: seq<LongOption>, name: string, value: string, next: Option<string>,
                    shortToo: bool)
    requires '=' !in name && !MatchLong(longs, name, shortToo).Found?
    ensures var result := if MatchLong(longs, name, shortToo).NoMatch? && shortToo then None
                          else Some(Outcome(Event('?' as int, None, Some(0), None, None), 1, ""));
      ParseLong(cfg, longs, name, next, shortToo) == result
      && ParseLong(cfg, longs, name + ("=" + value), next, shortToo) == result
  {
    FirstEqual(name, value);
  }

  // ---------- letters ----------

  /** The first place of c among the letters has after behind it. */
  ghost predicate Listed(letters: string, c: char, after: string) {
    exists before: string :: c !in before && letters == before + ([c] + after)
  }

  lemma ListedAt(letters: string, c: char, after: string)
    requires Listed(letters, c, after)
    ensures IndexOf(letters, c).Some?
    ensures var k := IndexOf(letters, c).value;
      && letters[k + 1..] == after
      && (LetterAt(letters, k + 1, ':') <==> ":" <= after)
      && (LetterAt(letters, k + 1, ';') <==> ";" <= after)
      && (":" <= after ==> (LetterAt(letters, k + 2, ':') <==> "::" <= after))
  {
    var before: string :| c !in before && letters == before + ([c] + after);
    FirstPlace(before, c, after);
    assert letters[|before| + 1..] == after;
  }

  function LetterEvent(c: char, arg: Option<string>): Event {
    Event(c as int, arg, None, None, None)
  }

  /** A letter and the text behind it in its word: without a colon it takes no argument,
      with one the text or else the next word, with two the text or else none. */
  lemma LetterForms(cfg: Config, tail: seq<string>, c: char, after: string, text: string)
    requires tail != [] && Listed(cfg.letters, c, after)
    requires c != ':' && (c == '-' ==> text == "") && !(cfg.longs.Some? && c == 'W' && ";" <= after)
    ensures ShortOption(cfg, tail, [c] + text) ==
      if !(":" <= after) then Outcome(LetterEvent(c, None), if text == "" then 1 else 0, text)
      else if text != "" then Outcome(LetterEvent(c, Some(text)), 1, "")
      else if "::" <= after then Outcome(LetterEvent(c, None), 1, "")
      else if |tail| == 1 then Outcome(ArgumentComplaint(cfg.letters, c as int), 1, "")
      else Outcome(LetterEvent(c, Some(tail[1])), 2, "")
  {
    ListedAt(cfg.letters, c, after);
    LetterAtPlace(cfg, tail, [c] + text, text, IndexOf(cfg.letters, c).value);
  }

  lemma LetterAtPlace(cfg: Config, tail: seq<string>, place: string, text: string, k: nat)
    requires tail != [] && place != "" && place[1..] == text && IndexOf(cfg.letters, place[0]) == Some(k)
    requires var c := place[0];
      c != ':' && (c == '-' ==> text == "") && !(cfg.longs.Some? && c == 'W' && LetterAt(cfg.letters, k + 1, ';'))
    ensures var c := place[0];
      ShortOption(cfg, tail, place) ==
      if !LetterAt(cfg.letters, k + 1, ':') then Outcome(LetterEvent(c, None), if text == "" then 1 else 0, text)
      else if text != "" then Outcome(LetterEvent(c, Some(text)), 1, "")
      else if LetterAt(cfg.letters, k + 2, ':') then Outcome(LetterEvent(c, None), 1, "")
      else if |tail| == 1 then Outcome(ArgumentComplaint(cfg.letters, c as int), 1, "")
      else Outcome(LetterEvent(c, Some(tail[1])), 2, "")
  {}

  /** Any other letter is complained of by itself; a lone dash ends the options. */
  lemma LetterUnknown(cfg: Config, tail: seq<string>, c: char, text: string)
    requires tail != [] && (c !in cfg.letters || c == ':' || (c == '-' && text != ""))
    ensures ShortOption(cfg, tail, [c] + text) ==
      if c == '-' && text == "" then Outcome(Event(-1, None, None, None, None), 0, "")
      else Outcome(Event('?' as int, None, Some(c as int), None, None), if text == "" then 1 else 0, text)
  {
    assert ([c] + text)[1..] == text;
  }

  lemma LongElement(cfg: Config, tail: seq<string>, text: string)
    requires tail != [] && cfg.longs.Some?
    ensures ParseLong(cfg, cfg.longs.value, text, At(tail, 1), false).Some?
    ensures Element(cfg, tail, "-" + text, false) == ParseLong(cfg, cfg.longs.value, text, At(tail, 1), false).value
  {
    assert ("-" + text)[1..] == text;
  }

  lemma ElementOfW(cfg: Config, tail: seq<string>, place: string, text: string, k: nat)
    requires tail != [] && cfg.longs.Some? && !cfg.longOnly && place != "" && place[0] == 'W' && place[1..] == text
    requires IndexOf(cfg.letters, 'W') == Some(k) && LetterAt(cfg.letters, k + 1, ';')
    ensures var longs := cfg.longs.value;
      Element(cfg, tail, place, false) ==
      if text != "" then ParseLong(cfg, longs, text, At(tail, 1), false).value
      else if |tail| < 2 then Outcome(Complaint(BadArg(cfg), 'W' as int), 1, "")
      else var o := ParseLong(cfg, longs, tail[1], At(tail, 2), false).value; o.(consumed := o.consumed + 1)
  {}

  /** -Wtext means what --text does. */
  lemma LongBehindW(cfg: Config, tail: seq<string>, after: string, text: string)
    requires tail != [] && cfg.longs.Some? && !cfg.longOnly && Listed(cfg.letters, 'W', after) && ";" <= after
    requires text != ""
    ensures Element(cfg, tail, "W" + text, false) == Element(cfg, tail, "-" + text, false)
  {
    ListedAt(cfg.letters, 'W', after);
    ElementOfW(cfg, tail, "W" + text, text, IndexOf(cfg.letters, 'W').value);
    LongElement(cfg, tail, text);
  }

  /** So does -W text, with a word more; and -W alone lacks its argument. */
  lemma LongAfterW(cfg: Config, tail: seq<string>, after: string)
    requires tail != [] && cfg.longs.Some? && !cfg.longOnly && Listed(cfg.letters, 'W', after) && ";" <= after
    ensures Element(cfg, tail, "W", false) ==
      if |tail| == 1 then Outcome(ArgumentComplaint(cfg.letters, 'W' as int), 1, "")
      else var o := Element(cfg, tail[1..], "-" + tail[1], false); o.(consumed := o.consumed + 1)
  {
    ListedAt(cfg.letters, 'W', after);
    ElementOfW(cfg, tail, "W", "", IndexOf(cfg.letters, 'W').value);
    if |tail| >= 2 {
      LongElement(cfg, tail[1..], tail[1]);
      assert At(tail[1..], 1) == At(tail, 2);
    }
  }

  /** For getopt_long_only one dash does what two do, unless the word may be letters. */
  lemma OneDashIsTwo(cfg: Config, tail: seq<string>, text: string)
    requires tail != [] && cfg.longs.Some? && cfg.longOnly && text != "" && text[0] != '-'
    requires text[0] !in cfg.letters || text[0] == ':'
    ensures Element(cfg, tail, text, false) == Element(cfg, tail, "-" + text, false)
  {
    assert ("-" + text)[1..] == text;
  }

  // ---------- command lines ----------

  /** A piece of a command line. In the last four, flags are letters without arguments. */
  datatype Use =
    | Operand(text: string)
    | Long(name: string, index: nat)                            // --name
    | LongEqual(name: string, index: nat, value: string)        // --name=value
    | LongNext(name: string, index: nat, value: string)         // --name value
    | Letters(flags: string)                                    // -abc
    | LettersBare(flags: string, last: char)                    // -abc, c's argument left out
    | LettersWith(flags: string, last: char, value: string)     // -abcvalue
    | LettersNext(flags: string, last: char, value: string)     // -abc value

  function Words(u: Use): (ws: seq<string>) {
    match u
    case Operand(text) => [text]
    case Long(name, _) => ["--" + name]
    case LongEqual(name, _, value) => ["--" + (name + ("=" + value))]
    case LongNext(name, _, value) => ["--" + name, value]
    case Letters(flags) => ["-" + flags]
    case LettersBare(flags, c) => ["-" + (flags + [c])]
    case LettersWith(flags, c, value) => ["-" + (flags + ([c] + value))]
    case LettersNext(flags, c, value) => ["-" + (flags + [c]), value]
  }

  function FlagEvents(flags: string): (es: seq<Event>) {
    seq(|flags|, k requires 0 <= k < |flags| => LetterEvent(flags[k], None))
  }

  /** What it says. */
  function Meant(cfg: Config, u: Use): seq<Event>
    requires MaySay(cfg, u)
  {
    match u
    case Operand(_) => []
    case Long(_, i) => [LongEvent(cfg.longs.value[i], i, None)]
    case LongEqual(_, i, value) => [LongEvent(cfg.longs.value[i], i, Some(value))]
    case LongNext(_, i, value) => [LongEvent(cfg.longs.value[i], i, Some(value))]
    case Letters(flags) => FlagEvents(flags)
    case LettersBare(flags, c) => FlagEvents(flags) + [LetterEvent(c, None)]
    case LettersWith(flags, c, value) => FlagEvents(flags) + [LetterEvent(c, Some(value))]
    case LettersNext(flags, c, value) => FlagEvents(flags) + [LetterEvent(c, Some(value))]
  }

  ghost predicate Names(cfg: Config, name: string, i: nat, rules: set<ArgumentRule>) {
    && cfg.longs.Some? && name != "" && '=' !in name
    && MatchLong(cfg.longs.value, name, false) == Found(i) && cfg.longs.value[i].hasArg in rules
  }

  /** c is an option letter followed by these colons. */
  ghost predicate IsLetter(cfg: Config, c: char, colons: string) {
    && c != ':' && c != '-'
    && exists after: string :: && Listed(cfg.letters, c, colons + after) && !(":" <= after)
                               && !(cfg.longs.Some? && c == 'W' && ";" <= colons + after)
  }

  ghost predicate AreFlags(cfg: Config, flags: string) {
    && (cfg.longs.Some? ==> !cfg.longOnly)
    && forall k :: 0 <= k < |flags| ==> IsLetter(cfg, flags[k], "")
  }

  /** It may be written under this configuration. */
  ghost predicate MaySay(cfg: Config, u: Use) {
    match u
    case Operand(text) => text == "" || text[0] != '-' || (text == "-" && '-' !in cfg.letters)
    case Long(name, i) => Names(cfg, name, i, {NoArgument, OptionalArgument})
    case LongEqual(name, i, _) => Names(cfg, name, i, {RequiredArgument, OptionalArgument})
    case LongNext(name, i, _) => Names(cfg, name, i, {RequiredArgument})
    case Letters(flags) => flags != "" && AreFlags(cfg, flags)
    case LettersBare(flags, c) => AreFlags(cfg, flags) && IsLetter(cfg, c, "::")
    case LettersWith(flags, c, value) =>
      AreFlags(cfg, flags) && (IsLetter(cfg, c, ":") || IsLetter(cfg, c, "::")) && value != ""
    case LettersNext(flags, c, _) => AreFlags(cfg, flags) && IsLetter(cfg, c, ":")
  }

  // ---------- scanning what was written ----------

  /** r with the events es and the options ws in front. */
  function Before(es: seq<Event>, ws: seq<string>, r: Scanned): Scanned {
    r.(events := es + r.events, opts := ws + r.opts)
  }

  lemma BeforeBoth(es: seq<Event>, fs: seq<Event>, ws: seq<string>, r: Scanned)
    ensures Before(es, [], Before(fs, ws, r)) == Before(es + fs, ws, r)
    ensures Before([], ws, r).events == r.events
  {
    Sequences.Regroup(es, fs, r.events);
    Sequences.Empty(ws + r.opts);
    Sequences.Empty(r.events);
  }

  /** One option that ends its word. */
  lemma ScanOne(cfg: Config, tail: seq<string>, place: string, e: Event, n: nat)
    requires NoReservedValue(cfg) && tail != [] && place != "" && e.ret != -1 && 0 < n <= |tail|
    requires Element(cfg, tail, place, false) == Outcome(e, n, "")
    ensures ScanElement(cfg, tail, place, false) == Before([e], tail[..n], Scan(cfg, tail[n..], ""))
  {}

  /** One letter of several. */
  lemma ScanLetter(cfg: Config, tail: seq<string>, place: string, e: Event, rest: string)
    requires NoReservedValue(cfg) && tail != [] && place != "" && e.ret != -1 && rest != ""
    requires Element(cfg, tail, place, false) == Outcome(e, 0, rest)
    ensures ScanElement(cfg, tail, place, false) == Before([e], [], ScanElement(cfg, tail, rest, false))
  {
    assert tail[0..] == tail;
  }

  lemma FlagsCons(flags: string)
    requires flags != ""
    ensures FlagEvents(flags) == [LetterEvent(flags[0], None)] + FlagEvents(flags[1..])
  {}

  lemma FlagsSnoc(flags: string)
    requires flags != ""
    ensures var n := |flags| - 1; FlagEvents(flags) == FlagEvents(flags[..n]) + [LetterEvent(flags[n], None)]
  {}

  lemma FlagIsLetter(cfg: Config, tail: seq<string>, c: char, rest: string)
    requires tail != [] && IsLetter(cfg, c, "") && (cfg.longs.Some? ==> !cfg.longOnly)
    ensures Element(cfg, tail, [c] + rest, false) ==
            Outcome(LetterEvent(c, None), if rest == "" then 1 else 0, rest)
  {
    var after: string :| Listed(cfg.letters, c, "" + after) && !(":" <= after)
                         && !(cfg.longs.Some? && c == 'W' && ";" <= "" + after);
    Sequences.Empty(after);
    LetterForms(cfg, tail, c, after, rest);
  }

  /** Flags in front of more letters. */
  lemma {:induction false} ScanFlags(cfg: Config, tail: seq<string>, flags: string, rest: string)
    requires NoReservedValue(cfg) && tail != [] && AreFlags(cfg, flags) && rest != ""
    ensures ScanElement(cfg, tail, flags + rest, false) ==
            Before(FlagEvents(flags), [], ScanElement(cfg, tail, rest, false))
    decreases |flags|
  {
    var r := ScanElement(cfg, tail, rest, false);
    if flags == "" {
      Sequences.Empty(rest);
      Sequences.Empty(r.events);
      Sequences.Empty(r.opts);
    } else {
      var more := flags[1..] + rest;
      FlagIsLetter(cfg, tail, flags[0], more);
      assert flags + rest == [flags[0]] + more;
      ScanLetter(cfg, tail, flags + rest, LetterEvent(flags[0], None), more);
      ScanFlags(cfg, tail, flags[1..], rest);
      BeforeBoth([LetterEvent(flags[0], None)], FlagEvents(flags[1..]), [], r);
      FlagsCons(flags);
    }
  }

  /** A word of flags whose last letter is e's. */
  lemma ScanWord(cfg: Config, tail: seq<string>, flags: string, last: string, e: Event, n: nat)
    requires NoReservedValue(cfg) && tail != [] && AreFlags(cfg, flags) && last != ""
    requires e.ret != -1 && 0 < n <= |tail| && Element(cfg, tail, last, false) == Outcome(e, n, "")
    ensures ScanElement(cfg, tail, flags + last, false) ==
            Before(FlagEvents(flags) + [e], tail[..n], Scan(cfg, tail[n..], ""))
  {
    ScanFlags(cfg, tail, flags, last);
    ScanOne(cfg, tail, last, e, n);
    BeforeBoth(FlagEvents(flags), [e], tail[..n], Scan(cfg, tail[n..], ""));
  }

  /** The scan takes an option's word for what follows its dash. */
  lemma ScanDash(cfg: Config, tail: seq<string>, place: string)
    requires NoReservedValue(cfg) && tail != [] && tail[0] == "-" + place && place != "" && place != "-"
    ensures Scan(cfg, tail, "") == ScanElement(cfg, tail, place, false)
  {
    assert tail[0][1..] == place;
    assert tail[0] != "--" by {
      assert "--"[1..] == "-";
    }
  }

  lemma LetterWithColons(cfg: Config, tail: seq<string>, c: char, colons: string, text: string)
    requires tail != [] && IsLetter(cfg, c, colons) && colons in {":", "::"} && (cfg.longs.Some? ==> !cfg.longOnly)
    ensures Element(cfg, tail, [c] + text, false) ==
      if text != "" then Outcome(LetterEvent(c, Some(text)), 1, "")
      else if colons == "::" then Outcome(LetterEvent(c, None), 1, "")
      else if |tail| == 1 then Outcome(ArgumentComplaint(cfg.letters, c as int), 1, "")
      else Outcome(LetterEvent(c, Some(tail[1])), 2, "")
  {
    var after: string :| Listed(cfg.letters, c, colons + after) && !(":" <= after)
                         && !(cfg.longs.Some? && c == 'W' && ";" <= colons + after);
    assert ":" <= colons + after;
    assert colons == ":" && after != "" ==> (colons + after)[1] == after[0];
    assert "::" <= colons + after <==> colons == "::";
    LetterForms(cfg, tail, c, colons + after, text);
  }

  lemma WordInFront(word: string, more: seq<string>)
    ensures var tail := [word] + more; tail[0] == word && tail[..1] == [word] && tail[1..] == more
  {}

  lemma ScanFlagWord(cfg: Config, flags: string, more: seq<string>)
    requires NoReservedValue(cfg) && flags != "" && AreFlags(cfg, flags)
    ensures Scan(cfg, ["-" + flags] + more, "") == Before(FlagEvents(flags), ["-" + flags], Scan(cfg, more, ""))
  {
    var tail := ["-" + flags] + more;
    var k := |flags| - 1;
    WordInFront("-" + flags, more);
    assert IsLetter(cfg, flags[0], "") && IsLetter(cfg, flags[k], "");
    ScanDash(cfg, tail, flags);
    ScanLastFlag(cfg, flags[..k], flags[k], tail);
    assert flags == flags[..k] + [flags[k]];
    FlagsSnoc(flags);
  }

  lemma ScanLastFlag(cfg: Config, flags: string, c: char, tail: seq<string>)
    requires NoReservedValue(cfg) && AreFlags(cfg, flags) && IsLetter(cfg, c, "") && (cfg.longs.Some? ==> !cfg.longOnly)
    requires tail != []
    ensures ScanElement(cfg, tail, flags + [c], false) ==
            Before(FlagEvents(flags) + [LetterEvent(c, None)], tail[..1], Scan(cfg, tail[1..], ""))
  {
    FlagIsLetter(cfg, tail, c, "");
    Sequences.Empty([c]);
    ScanWord(cfg, tail, flags, [c], LetterEvent(c, None), 1);
  }

  /** A word of flags whose last letter, with text behind it, takes an argument and uses up
      n words. */
  lemma ScanLastLetter(cfg: Config, flags: string, c: char, text: string, arg: Option<string>, n: nat,
                       tail: seq<string>)
    requires NoReservedValue(cfg) && AreFlags(cfg, flags) && c != '-'
    requires 0 < n <= |tail| && tail[0] == "-" + (flags + ([c] + text))
    requires Element(cfg, tail, [c] + text, false) == Outcome(LetterEvent(c, arg), n, "")
    ensures Scan(cfg, tail, "") ==
            Before(FlagEvents(flags) + [LetterEvent(c, arg)], tail[..n], Scan(cfg, tail[n..], ""))
  {
    var place := flags + ([c] + text);
    assert place[0] == if flags == "" then c else flags[0];
    assert place != "-" by {
      assert flags != "" ==> flags[0] != '-';
    }
    ScanDash(cfg, tail, place);
    ScanWord(cfg, tail, flags, [c] + text, LetterEvent(c, arg), n);
  }

  lemma ScanLetters(cfg: Config, u: Use, more: seq<string>)
    requires NoReservedValue(cfg) && MaySay(cfg, u)
    requires u.LettersBare? || u.LettersWith? || u.LettersNext?
    ensures Scan(cfg, Words(u) + more, "") == Before(Meant(cfg, u), Words(u), Scan(cfg, more, ""))
  {
    var tail, n := Words(u) + more, |Words(u)|;
    assert tail[..n] == Words(u) && tail[n..] == more && tail[0] == Words(u)[0];
    Sequences.Empty([u.last]);
    if u.LettersBare? {
      LetterWithColons(cfg, tail, u.last, "::", "");
      ScanLastLetter(cfg, u.flags, u.last, "", None, n, tail);
    } else if u.LettersWith? {
      LetterWithColons(cfg, tail, u.last, if IsLetter(cfg, u.last, ":") then ":" else "::", u.value);
      ScanLastLetter(cfg, u.flags, u.last, u.value, Some(u.value), n, tail);
    } else {
      LetterWithColons(cfg, tail, u.last, ":", "");
      ScanLastLetter(cfg, u.flags, u.last, "", Some(u.value), n, tail);
    }
  }

  lemma ScanLongWord(cfg: Config, tail: seq<string>, text: string, e: Event, n: nat)
    requires NoReservedValue(cfg) && cfg.longs.Some? && text != "" && e.ret != -1
    requires 0 < n <= |tail| && tail[0] == "--" + text
    requires ParseLong(cfg, cfg.longs.value, text, At(tail, 1), false) == Some(Outcome(e, n, ""))
    ensures Scan(cfg, tail, "") == Before([e], tail[..n], Scan(cfg, tail[n..], ""))
  {
    LongElement(cfg, tail, text);
    assert tail[0] == "-" + ("-" + text);
    ScanDash(cfg, tail, "-" + text);
    ScanOne(cfg, tail, "-" + text, e, n);
  }

  lemma ScanLong(cfg: Config, u: Use, more: seq<string>)
    requires NoReservedValue(cfg) && MaySay(cfg, u) && (u.Long? || u.LongEqual? || u.LongNext?)
    ensures Scan(cfg, Words(u) + more, "") == Before(Meant(cfg, u), Words(u), Scan(cfg, more, ""))
  {
    var tail, n := Words(u) + more, |Words(u)|;
    assert tail[..n] == Words(u) && tail[n..] == more;
    var longs := cfg.longs.value;
    assert longs[u.index] in longs;
    LongForms(cfg, longs, u.name, if u.LongEqual? then u.value else "", At(tail, 1), false, u.index);
    ScanLongWord(cfg, tail, if u.LongEqual? then u.name + ("=" + u.value) else u.name, Meant(cfg, u)[0], n);
  }

  // ---------- whole command lines ----------

  ghost predicate MayAllSay(cfg: Config, us: seq<Use>) {
    forall k :: 0 <= k < |us| ==> MaySay(cfg, us[k])
  }

  function Written(us: seq<Use>): seq<string> {
    if us == [] then [] else Words(us[0]) + Written(us[1..])
  }

  function AllMeant(cfg: Config, us: seq<Use>): seq<Event>
    requires MayAllSay(cfg, us)
  {
    if us == [] then [] else Meant(cfg, us[0]) + AllMeant(cfg, us[1..])
  }

  function Options(us: seq<Use>): seq<string> {
    if us == [] then [] else (if us[0].Operand? then [] else Words(us[0])) + Options(us[1..])
  }

  function Operands(us: seq<Use>): seq<string> {
    if us == [] then [] else (if us[0].Operand? then [us[0].text] else []) + Operands(us[1..])
  }

  /** A scan of what was written reports what it says, in order, and sorts its words. */
  lemma {:induction false} ScanWritten(cfg: Config, us: seq<Use>, more: seq<string>)
    requires NoReservedValue(cfg) && MayAllSay(cfg, us)
    ensures var r := Scan(cfg, more, "");
      Scan(cfg, Written(us) + more, "") ==
      Scanned(AllMeant(cfg, us) + r.events, Options(us) + r.opts, Operands(us) + r.nons, r.rest, r.stray)
    decreases |us|
  {
    var r := Scan(cfg, more, "");
    if us == [] {
      Sequences.Empty(more);
      Sequences.Empty(r.events);
      Sequences.Empty(r.opts);
      Sequences.Empty(r.nons);
    } else {
      var u, rest := us[0], us[1..];
      ScanWritten(cfg, rest, more);
      Sequences.Regroup(Words(u), Written(rest), more);
      ScanUse(cfg, u, Written(rest) + more);
      Sequences.Regroup(Meant(cfg, u), AllMeant(cfg, rest), r.events);
      Sequences.Regroup(if u.Operand? then [] else Words(u), Options(rest), r.opts);
      Sequences.Regroup(if u.Operand? then [u.text] else [], Operands(rest), r.nons);
    }
  }

  lemma ScanUse(cfg: Config, u: Use, more: seq<string>)
    requires NoReservedValue(cfg) && MaySay(cfg, u)
    ensures var r := Scan(cfg, more, "");
      Scan(cfg, Words(u) + more, "") ==
      r.(events := Meant(cfg, u) + r.events, opts := (if u.Operand? then [] else Words(u)) + r.opts,
         nons := (if u.Operand? then [u.text] else []) + r.nons)
  {
    var r := Scan(cfg, more, "");
    if u.Operand? {
      assert (Words(u) + more)[1..] == more;
      Sequences.Empty(r.events);
      Sequences.Empty(r.opts);
    } else {
      if u.Long? || u.LongEqual? || u.LongNext? {
        ScanLong(cfg, u, more);
      } else if u.Letters? {
        ScanFlagWord(cfg, u.flags, more);
      } else {
        ScanLetters(cfg, u, more);
      }
      Sequences.Empty(r.nons);
    }
  }

  /** Round trip. In permute mode a run over a command line reports exactly what was
      written on it, in order, each option with its argument, and leaves the options in
      front, then the operands, with optind at the first of them; words behind a double
      dash are operands, whatever they look like. */
  lemma RunReadsWritten(cfg: Config, program: string, us: seq<Use>, dashed: Option<seq<string>>)
    requires cfg.permute && !cfg.allArgs && NoReservedValue(cfg)
    requires cfg.longs.Some? || '-' in cfg.letters
    requires MayAllSay(cfg, us)
    ensures var more := if dashed.Some? then ["--"] + dashed.value else [];
            var argv := [program] + (Written(us) + more);
      && Initial(argv).Valid()
      && (var (t, es) := Run(cfg, Initial(argv));
          && es == AllMeant(cfg, us) && t.optind <= |t.argv|
          && t.argv[..t.optind] == [program] + Options(us) + (if dashed.Some? then ["--"] else [])
          && t.argv[t.optind..] == Operands(us) + (if dashed.Some? then dashed.value else []))
  {
    ScanDashed(cfg, dashed);
    RunReadsMore(cfg, program, us, if dashed.Some? then ["--"] + dashed.value else [],
                 if dashed.Some? then ["--"] else [], if dashed.Some? then dashed.value else []);
  }

  lemma RunReadsMore(cfg: Config, program: string, us: seq<Use>, more: seq<string>, d: seq<string>, rest: seq<string>)
    requires cfg.permute && !cfg.allArgs && NoReservedValue(cfg)
    requires cfg.longs.Some? || '-' in cfg.letters
    requires MayAllSay(cfg, us) && Scan(cfg, more, "") == Scanned([], d, [], rest, false)
    ensures var argv := [program] + (Written(us) + more);
      && Initial(argv).Valid()
      && (var (t, es) := Run(cfg, Initial(argv));
          && es == AllMeant(cfg, us) && t.optind <= |t.argv|
          && t.argv[..t.optind] == [program] + Options(us) + d && t.argv[t.optind..] == Operands(us) + rest)
  {
    var argv := [program] + (Written(us) + more);
    WordInFront(program, Written(us) + more);
    ScanWritten(cfg, us, more);
    Sequences.Empty(AllMeant(cfg, us));
    Sequences.Empty(Operands(us));
    RunIsScan(cfg, argv);
    Sorted([program], Options(us), d, Operands(us), rest, Run(cfg, Initial(argv)).0.argv);
  }

  lemma ScanDashed(cfg: Config, dashed: Option<seq<string>>)
    requires NoReservedValue(cfg)
    ensures Scan(cfg, if dashed.Some? then ["--"] + dashed.value else [], "") ==
            Scanned([], if dashed.Some? then ["--"] else [], [], if dashed.Some? then dashed.value else [], false)
  {
    if dashed.Some? {
      WordInFront("--", dashed.value);
      assert !NonOption(cfg, "--");
    }
  }

  lemma Sorted(p: seq<string>, o: seq<string>, d: seq<string>, n: seq<string>, rest: seq<string>, v: seq<string>)
    requires v == p + (o + d) + n + rest
    ensures |p| + |o + d| <= |v|
    ensures v[..|p| + |o + d|] == p + o + d && v[|p| + |o + d|..] == n + rest
  {
    Sequences.Regroup(p, o, d);
    Sequences.Regroup(p + (o + d), n, rest);
  }

  // ---------- the other modes ----------

  /** Without permutation a run never touches the vector. */
  lemma {:induction false} NeverPermuted(cfg: Config, s: State)
    requires s.Valid() && !s.reset && s.nonoptStart.None? && NoReservedValue(cfg) && (cfg.allArgs || !cfg.permute)
    ensures Run(cfg, s).0.argv == s.argv
    decreases |s.argv| - s.optind, Weight(s.argv[s.optind..], s.place)
  {
    CallProgress(cfg, s);
    var (t, e) := Call(cfg, s);
    if e.ret != -1 {
      NeverPermuted(cfg, t);
    }
  }

  /** An operand is reported as the argument of option 1, if all arguments are asked for
      in order, and otherwise ends the options where it is. */
  lemma OperandInPlace(cfg: Config, s: State)
    requires s.Valid() && !s.reset && s.place == "" && s.optind < |s.argv| && (cfg.allArgs || !cfg.permute)
    requires MaySay(cfg, Operand(s.argv[s.optind]))
    ensures Call(cfg, s) == if cfg.allArgs
                            then (s.(optind := s.optind + 1), Event(1, Some(s.argv[s.optind]), None, None, None))
                            else (s, Event(-1, None, None, None, None))
  {}

  /** What the first character of the options string does. */
  lemma Configured(letters: string, longs: Option<seq<LongOption>>, permute: bool, longOnly: bool, posix: bool)
    ensures Configure("-" + letters, longs, permute, longOnly, posix) == Config(letters, true, permute, longs, longOnly)
    ensures Configure("+" + letters, longs, permute, longOnly, posix) == Config(letters, false, false, longs, longOnly)
    ensures !("-" <= letters) && !("+" <= letters) ==>
      Configure(letters, longs, permute, longOnly, posix) == Config(letters, false, permute && !posix, longs, longOnly)
  {
    assert ("-" + letters)[1..] == letters && ("+" + letters)[1..] == letters;
  }

  /** A call after a reset is the first call on what is left of the vector. */
  lemma ResetStartsAfresh(cfg: Config, s: State)
    requires s.Valid() && s.reset
    ensures State(s.argv, s.optind, "", None, None, false).Valid()
    ensures Call(cfg, s) == Call(cfg, State(s.argv, s.optind, "", None, None, false))
  {}
}
