/**
 The program text of request handling in `clnt_connection` of chapter6/rpi6/rpi6.c, over real
 character buffers of any size, proved against the string functions of `Requests`.
 */
module RequestServer {
  import opened CStrings
  import opened Options
  import opened Requests

  class Server {
    const bufsiz: nat
    const verb: array<char>
    const fileName: array<char>
    const optLine: array<char>
    const optStr: seq<array<char>>   // equal-sized rows
    const slot: nat                  // their size
    const opt: array<char>
    const value: array<char>
    const strtok: Tokenizer
    var led: bool
    ghost var printed: seq<Pair>   // the "%s = %s" lines
    var done: seq<Command>

    // One of the five buffers that are not option slots.
    predicate Fixed(a: array<char>) {
      a == verb || a == fileName || a == optLine || a == opt || a == value
    }

    ghost predicate Valid() {
      && fileName.Length <= bufsiz
      && verb != fileName && verb != optLine && verb != opt && verb != value
      && fileName != optLine && fileName != opt && fileName != value
      && optLine != opt && optLine != value && opt != value
      && (forall i :: 0 <= i < |optStr| ==>
            optStr[i].Length == slot && !Fixed(optStr[i]))
      && forall i, j :: 0 <= i < j < |optStr| ==> optStr[i] != optStr[j]
    }

    constructor (bufsiz: nat, verb: array<char>, fileName: array<char>, optLine: array<char>,
                 optStr: seq<array<char>>, slot: nat, opt: array<char>, value: array<char>, strtok: Tokenizer)
      requires fileName.Length <= bufsiz
      requires verb !in {fileName, optLine, opt, value} && fileName !in {optLine, opt, value}
      requires optLine !in {opt, value} && opt != value
      requires forall i :: 0 <= i < |optStr| ==>
                 optStr[i].Length == slot && optStr[i] !in {verb, fileName, optLine, opt, value}
      requires forall i, j :: 0 <= i < j < |optStr| ==> optStr[i] != optStr[j]
      ensures Valid() && !led && printed == [] && done == []
    {
      this.bufsiz, this.verb, this.fileName, this.optLine := bufsiz, verb, fileName, optLine;
      this.optStr, this.slot, this.opt, this.value, this.strtok := optStr, slot, opt, value, strtok;
      led, printed, done := false, [], [];
    }

    // The first i characters have been shifted, and the next comes from j.
    ghost predicate Shifting(i: nat, j: nat, mem: seq<char>, s: string)
      reads fileName
    {
      && ShiftFits(mem, s) && s[0] == '/' && i <= |s| && fileName.Length == |mem|
      && j == (if i == 0 then 0 else if SecondSlash(s) then 2 * i else i + 1)
      && (forall q :: 0 <= q < i ==> fileName[q] == mem[ShiftSource(s, q)])
      && forall q :: i <= q < |mem| ==> fileName[q] == mem[q]
    }

    // Lines 270-272.
    method ShiftOne(i: nat, j: nat, ghost mem: seq<char>, ghost s: string) returns (next: nat, last: bool)
      requires Shifting(i, j, mem, s) && i < |s|
      modifies fileName
      ensures Shifting(i + 1, next, mem, s) && last == (i + 1 == |s|)
    {
      next := j;
      HoldsAt(mem, 0, s, 0);
      HoldsAt(mem, 0, s, 1);
      HoldsAt(mem, 0, s, i + 1);
      ShiftReads(mem, s, i);
      assert fileName[0] == if i == 0 then mem[0] else mem[ShiftSource(s, 0)];
      if fileName[0] == '/' {
        next := next + 1;
      }
      assert next == ShiftSource(s, i) && fileName[next] == mem[next];
      fileName[i] := fileName[next];
      next := next + 1;
      last := fileName[i + 1] == NUL;
    }

    // Lines 268-274.
    method DropSlash(ghost s: string)
      requires Valid() && Holds(fileName[..], 0, s)
      requires s != [] && s[0] == '/' ==> ShiftFits(fileName[..], s)
      modifies fileName
      ensures fileName[..] == if s != [] && s[0] == '/' then Shifted(old(fileName[..]), s) else old(fileName[..])
    {
      ghost var mem := fileName[..];
      HoldsAt(mem, 0, s, 0);
      if fileName[0] == '/' {
        var i, j, last := 0, 0, false;
        while i < bufsiz && !last
          invariant Shifting(i, j, mem, s) && last == (i == |s|)
          decreases |s| - i
        {
          j, last := ShiftOne(i, j, mem, s);
          i := i + 1;
        }
        assert i == |s|;
      }
    }

    /** Everything the buffers must hold for one GET target. */
    ghost predicate Fits(file: string) {
      |file| < fileName.Length && OptionsFit(file, optLine.Length, |optStr|, slot, opt.Length, value.Length)
    }

    // The state of the '&' pass with count options taken and tok the next token.
    ghost predicate Cutting(count: nat, tok: int, all: seq<string>)
      reads strtok, strtok.buf, optLine
    {
      && strtok.Valid() && strtok.buf == optLine
      && if tok < 0 then count == |all|
         else count < |all| && Holds(optLine[..], tok, all[count]) && Tokens(strtok.rest, '&') == all[count + 1..]
    }

    ghost predicate Stored(i: nat, s: string)
      requires i < |optStr|
      reads optStr[i]
    {
      Holds(optStr[i][..], 0, s)
    }

    // Line 290.
    method StoreToken(count: nat, tok: nat, ghost s: string)
      requires Valid() && count < |optStr| && Holds(optLine[..], tok, s) && |s| < slot
      modifies optStr[count]
      ensures Stored(count, s)
    {
      StrCpy(optStr[count], optLine, tok, s);
    }

    // strtok on the option line, with the tokens still to come.
    method NextOption(ghost coming: seq<string>) returns (tok: int)
      requires strtok.Valid() && strtok.buf == optLine && Tokens(strtok.rest, '&') == coming
      modifies strtok, optLine
      ensures strtok.Valid() && strtok.buf == optLine
      ensures if coming == [] then tok < 0
              else tok >= 0 && Holds(optLine[..], tok, coming[0]) && Tokens(strtok.rest, '&') == coming[1..]
    {
      TokensUnfold(strtok.rest, '&');
      tok := strtok.Next('&');
    }

    // Lines 290-291: copy the current token to its slot and cut the next one.
    method TakeOption(count: nat, tok: nat, ghost all: seq<string>) returns (next: int)
      requires Valid() && Cutting(count, tok, all) && |all| <= |optStr| && |all[count]| < slot
      modifies strtok, optLine, optStr[count]
      ensures Stored(count, all[count]) && Cutting(count + 1, next, all)
    {
      StoreToken(count, tok, all[count]);
      next := NextOption(all[count + 1..]);
    }

    // Line 288.
    method FirstOption(ghost query: string) returns (tok: int)
      requires Valid() && Holds(optLine[..], 0, query)
      modifies strtok, optLine
      ensures Cutting(0, tok, Tokens(query, '&'))
    {
      strtok.Begin(optLine, query);
      tok := NextOption(Tokens(query, '&'));
    }

    // The first count options are in their slots.
    ghost predicate Taken(count: nat, all: seq<string>)
      reads optStr
    {
      count <= |all| <= |optStr| && forall i :: 0 <= i < count ==> Stored(i, all[i])
    }

    // One option more.
    method TakeNext(count: nat, tok: nat, ghost all: seq<string>) returns (next: int)
      requires Valid() && Cutting(count, tok, all) && Taken(count, all) && |all[count]| < slot
      modifies strtok, optLine, optStr[count]
      ensures Cutting(count + 1, next, all) && Taken(count + 1, all)
    {
      next := TakeOption(count, tok, all);
    }

    // Lines 288-292: cut the options apart, each into its own slot.
    method CutOptions(ghost query: string) returns (count: nat)
      requires Valid() && Holds(optLine[..], 0, query)
      requires |Tokens(query, '&')| <= |optStr|
      requires forall i :: 0 <= i < |Tokens(query, '&')| ==> |Tokens(query, '&')[i]| < slot
      modifies strtok, optLine, optStr
      ensures count == |Tokens(query, '&')|
      ensures forall i :: 0 <= i < count ==> Stored(i, Tokens(query, '&')[i])
    {
      ghost var all := Tokens(query, '&');
      count := 0;
      var tok := FirstOption(query);
      while tok >= 0
        invariant Cutting(count, tok, all) && Taken(count, all)
        decreases |all| - count
      {
        tok := TakeNext(count, tok, all);
        count := count + 1;
      }
    }

    // Lines 296-297: cut one option into its two buffers.
    method CutOption(row: array<char>, ghost s: string)
      requires Valid() && row in optStr && Holds(row[..], 0, s)
      requires ParseOption(s).Some? && OptionFits(s, slot, opt.Length, value.Length)
      modifies strtok, row, opt, value
      ensures Holds(opt[..], 0, ParseOption(s).value.0)
      ensures Holds(value[..], 0, ParseOption(s).value.1)
    {
      ghost var o := ParseOption(s).value;
      strtok.Begin(row, s);
      var tok := strtok.Next('=');
      StrCpy(opt, row, tok, o.0);
      tok := strtok.Next('=');
      StrCpy(value, row, tok, o.1);
    }

    method LedControl(on: bool)
      modifies this`led
      ensures led == on
    {
      led := on;
    }

    // Lines 298-307: act on the option in the buffers.
    method Dispatch(ghost o: Pair)
      requires Valid() && Holds(opt[..], 0, o.0) && Holds(value[..], 0, o.1)
      modifies this
      ensures printed == old(printed) + [o]
      ensures done == old(done) + [CommandOf(o)]
      ensures done[|old(done)|] == PlayMusic <==> o == ("music", "Play")
      ensures done[|old(done)|] == RunMotor <==> o == ("motor", "On")
      ensures done[|old(done)|] == LedOn <==> o == ("led", "On")
      ensures done[|old(done)|] == LedOff <==> o == ("led", "Off")
      ensures led == if o == ("led", "On") then true else if o == ("led", "Off") then false else old(led)
    {
      OptionCommands(o);
      printed := printed + [o];
      var isLed := StrEq(opt, o.0, "led");
      var isMusic := StrEq(opt, o.0, "music");
      var isMotor := StrEq(opt, o.0, "motor");
      var isOn := StrEq(value, o.1, "On");
      var isOff := StrEq(value, o.1, "Off");
      var isPlay := StrEq(value, o.1, "Play");
      var c := Ignored;
      if isLed && isOn {
        LedControl(true);
        c := LedOn;
      } else if isLed && isOff {
        LedControl(false);
        c := LedOff;
      } else if isMusic && isPlay {
        c := PlayMusic;
      } else if isMotor && isOn {
        c := RunMotor;
      }
      done := done + [c];
    }

    // Lines 296-307.
    method RunOption(i: nat, ghost s: string)
      requires Valid() && i < |optStr| && Stored(i, s)
      requires ParseOption(s).Some? && OptionFits(s, slot, opt.Length, value.Length)
      modifies this, strtok, optStr[i], opt, value
      ensures var o := ParseOption(s).value;
        && printed == old(printed) + [o]
        && done == old(done) + [CommandOf(o)]
        && led == LedAfter(old(led), [CommandOf(o)])
    {
      CutOption(optStr[i], s);
      Dispatch(ParseOption(s).value);
    }

    // The first i options have been printed and acted on, starting from the given state.
    ghost predicate RanTo(i: nat, os: seq<Pair>, printed0: seq<Pair>, done0: seq<Command>, led0: bool)
      requires i <= |os|
      reads this
    {
      && printed == printed0 + os[..i]
      && done == done0 + Commands(os)[..i]
      && led == LedAfter(led0, Commands(os)[..i])
    }

    method RunNth(i: nat, ghost strs: seq<string>,
                  ghost printed0: seq<Pair>, ghost done0: seq<Command>, ghost led0: bool)
      requires Valid() && i < |strs| <= |optStr| && Stored(i, strs[i]) && ParseOptions(strs).Some?
      requires OptionFits(strs[i], slot, opt.Length, value.Length)
      requires |ParseOptions(strs).value| == |strs| && RanTo(i, ParseOptions(strs).value, printed0, done0, led0)
      modifies this, strtok, optStr[i], opt, value
      ensures RanTo(i + 1, ParseOptions(strs).value, printed0, done0, led0)
    {
      ghost var os := ParseOptions(strs).value;
      ParseOptionsIndexed(strs, i);
      RunOption(i, strs[i]);
      OneMore(os, i);
      OneMore(Commands(os), i);
      LedAfterOneMore(led0, Commands(os), i);
    }

    // The options from position i on are still in their slots.
    ghost predicate Slots(i: nat, strs: seq<string>)
      reads optStr
    {
      |strs| <= |optStr| && forall j :: i <= j < |strs| ==> Stored(j, strs[j])
    }

    ghost predicate AllFit(strs: seq<string>) {
      forall i :: 0 <= i < |strs| ==> OptionFits(strs[i], slot, opt.Length, value.Length)
    }

    method RunSlot(i: nat, ghost strs: seq<string>,
                   ghost printed0: seq<Pair>, ghost done0: seq<Command>, ghost led0: bool)
      requires Valid() && i < |strs| && Slots(i, strs) && AllFit(strs) && ParseOptions(strs).Some?
      requires |ParseOptions(strs).value| == |strs| && RanTo(i, ParseOptions(strs).value, printed0, done0, led0)
      modifies this, strtok, optStr[i], opt, value
      ensures RanTo(i + 1, ParseOptions(strs).value, printed0, done0, led0) && Slots(i + 1, strs)
    {
      RunNth(i, strs, printed0, done0, led0);
    }

    // Lines 295-308: the options in their slots, in order.
    method RunOptions(count: nat, ghost strs: seq<string>)
      requires Valid() && count == |strs| && Slots(0, strs) && AllFit(strs) && ParseOptions(strs).Some?
      modifies this, strtok, optStr, opt, value
      ensures var os := ParseOptions(strs).value;
        && printed == old(printed) + os
        && done == old(done) + Commands(os)
        && led == LedAfter(old(led), Commands(os))
    {
      ghost var os := ParseOptions(strs).value;
      OptionCount(strs);
      var i := 0;
      while i < count
        invariant 0 <= i <= count && RanTo(i, os, old(printed), old(done), old(led)) && Slots(i, strs)
      {
        RunSlot(i, strs, old(printed), old(done), old(led));
        i := i + 1;
      }
      assert os[..i] == os && Commands(os)[..i] == Commands(os);
    }

    // The path token is at the start of the buffer, so line 284 copies it onto itself.
    method SplitPath(ghost file: string)
      requires Valid() && Holds(fileName[..], 0, file) && |file| < fileName.Length
      requires '?' in file && file[0] != '?'
      modifies strtok, fileName
      ensures Holds(fileName[..], 0, Token(file, '?'))
      ensures strtok.Valid() && strtok.buf == fileName
      ensures strtok.rest == AfterToken(file, '?') && strtok.cur == |Token(file, '?')| + 1
    {
      strtok.Begin(fileName, file);
      TokenIsPrefix(file, '?');
      var tok := strtok.Next('?');
      StrCpy(fileName, fileName, tok, Token(file, '?'));
    }

    method SplitQuery(ghost path: string, ghost rest: string)
      requires Valid() && strtok.Valid() && strtok.buf == fileName
      requires strtok.rest == rest && strtok.cur == |path| + 1 && Holds(fileName[..], 0, path)
      requires var q := Token(Skip(rest, '?'), '?'); q != [] && |q| < optLine.Length
      modifies strtok, fileName, optLine
      ensures Holds(fileName[..], 0, path)
      ensures Holds(optLine[..], 0, Token(Skip(rest, '?'), '?'))
    {
      ghost var before := fileName[..];
      var tok := strtok.Next('?');
      assert fileName[..][0..|path|] == before[0..|path|];
      StrCpy(optLine, fileName, tok, Token(Skip(rest, '?'), '?'));
    }

    // Lines 284-285.
    method SplitTarget(ghost file: string)
      requires Valid() && Holds(fileName[..], 0, file) && |Query(file)| < optLine.Length
      requires '?' in file && file[0] != '?' && Query(file) != []
      modifies strtok, fileName, optLine
      ensures Holds(fileName[..], 0, Token(file, '?'))
      ensures Holds(optLine[..], 0, Query(file))
    {
      SplitPath(file);
      SplitQuery(Token(file, '?'), AfterToken(file, '?'));
    }

    // Lines 276-309.
    method Control(ghost file: string)
      requires Valid() && Holds(fileName[..], 0, file) && Parse(file).Some? && Fits(file)
      modifies this, strtok, fileName, optLine, optStr, opt, value
      ensures var p := Parse(file).value;
        && Holds(fileName[..], 0, p.path)
        && printed == old(printed) + p.options
        && done == old(done) + Commands(p.options)
        && led == LedAfter(old(led), Commands(p.options))
    {
      var hasQuery := HasChar(fileName, file, '?');
      if hasQuery {
        SplitTarget(file);
        ghost var strs := Tokens(Query(file), '&');
        var count := CutOptions(Query(file));
        RunOptions(count, strs);
      } else {
        assert Commands([]) == [];
      }
    }

    /** What a GET line must satisfy for the source to serve it: a target with no second
        leading slash, no copy from NULL, and every piece within its buffer. */
    ghost predicate Serves(target: string) {
      && (target != [] && target[0] == '/' ==> !SecondSlash(target))
      && |target| < fileName.Length
      && Parse(StripSlash(target)).Some?
      && OptionsFit(StripSlash(target), optLine.Length, |optStr|, slot, opt.Length, value.Length)
    }

    /** A request line with a method that fits its buffer and, for GET, a target it serves. */
    ghost predicate Handles(line: string) {
      && ParseLine(line).Some?
      && |Token(Skip(line, ' '), ' ')| < verb.Length
      && (ParseLine(line).value.Get? ==> Serves(ParseLine(line).value.target))
    }

    // Lines 252-267: method and target.
    method CutLine(regLine: array<char>, ghost line: string) returns (isGet: bool)
      requires Valid() && regLine != verb && regLine != fileName
      requires Holds(regLine[..], 0, line) && ParseLine(line).Some?
      requires |Token(Skip(line, ' '), ' ')| < verb.Length
      requires ParseLine(line).value.Get? ==> |ParseLine(line).value.target| < fileName.Length
      modifies strtok, regLine, verb, fileName
      ensures isGet == ParseLine(line).value.Get?
      ensures isGet ==> Holds(fileName[..], 0, ParseLine(line).value.target)
    {
      ghost var verbText := Token(Skip(line, ' '), ' ');
      strtok.Begin(regLine, line);
      var tok := strtok.Next(' ');
      StrCpy(verb, regLine, tok, verbText);
      var isPost := StrEq(verb, verbText, "POST");
      if isPost {
        return false;
      }
      isGet := StrEq(verb, verbText, "GET");
      if isGet {
        tok := strtok.Next(' ');
        StrCpy(fileName, regLine, tok, ParseLine(line).value.target);
      }
    }

    method ShiftTarget(ghost target: string)
      requires Valid() && Holds(fileName[..], 0, target)
      requires target != [] && target[0] == '/' ==> !SecondSlash(target)
      modifies fileName
      ensures Holds(fileName[..], 0, StripSlash(target))
    {
      ghost var mem := fileName[..];
      DropSlash(target);
      if target != [] && target[0] == '/' {
        ShiftDropsSlash(mem, target);
      }
    }

    // Lines 252-309: from the request line to the actuators.
    method HandleLine(regLine: array<char>, ghost line: string) returns (served: bool)
      requires Valid() && regLine !in {verb, fileName, optLine, opt, value} && regLine !in optStr
      requires Holds(regLine[..], 0, line) && Handles(line)
      modifies this, strtok, regLine, verb, fileName, optLine, optStr, opt, value
      ensures served == ParseLine(line).value.Get?
      ensures !served ==> led == old(led) && done == old(done) && printed == old(printed)
      ensures served ==>
        var p := Parse(StripSlash(ParseLine(line).value.target)).value;
        && Holds(fileName[..], 0, p.path)
        && printed == old(printed) + p.options
        && done == old(done) + Commands(p.options)
        && led == LedAfter(old(led), Commands(p.options))
    {
      served := CutLine(regLine, line);
      if served {
        ghost var target := ParseLine(line).value.target;
        ShiftTarget(target);
        Control(StripSlash(target));
      }
    }

    // The given options have been printed and carried out, starting from the given state.
    ghost predicate Did(os: seq<Pair>, printed0: seq<Pair>, done0: seq<Command>, led0: bool)
      reads this
    {
      && printed == printed0 + os
      && done == done0 + Commands(os)
      && led == LedAfter(led0, Commands(os))
    }

    // The same with the line's options.
    method HandleNext(regLine: array<char>, ghost line: string)
      requires Valid() && regLine !in {verb, fileName, optLine, opt, value} && regLine !in optStr
      requires Holds(regLine[..], 0, line) && Handles(line)
      modifies this, strtok, regLine, verb, fileName, optLine, optStr, opt, value
      ensures Did(OptionsOfLine(line), old(printed), old(done), old(led))
    {
      var served := HandleLine(regLine, line);
      assert !served ==> OptionsOfLine(line) == [] && Commands([]) == [];
    }

    // fgets on a line shorter than the buffer.
    method FGets(line: string) returns (regLine: array<char>)
      requires |line| < bufsiz && NUL !in line
      ensures fresh(regLine) && Holds(regLine[..], 0, line)
    {
      regLine := new char[bufsiz](_ => NUL);
      var k := 0;
      while k < |line|
        invariant 0 <= k <= |line| && regLine[|line|] == NUL
        invariant forall q :: 0 <= q < k ==> regLine[q] == line[q]
      {
        regLine[k] := line[k];
        k := k + 1;
      }
      CopyHolds(regLine[..], line);
    }

    // One connection: its request line is read into a buffer of its own.
    method Connection(line: string)
      requires Valid() && |line| < bufsiz && NUL !in line && Handles(line)
      modifies this, strtok, verb, fileName, optLine, optStr, opt, value
      ensures Did(OptionsOfLine(line), old(printed), old(done), old(led))
    {
      var regLine := FGets(line);
      HandleNext(regLine, line);
    }

    ghost predicate HandlesAll(lines: seq<string>) {
      forall i :: 0 <= i < |lines| ==> |lines[i]| < bufsiz && NUL !in lines[i] && Handles(lines[i])
    }

    lemma DidMore(os: seq<Pair>, more: seq<Pair>, all: seq<Pair>,
                  printed0: seq<Pair>, done0: seq<Command>, led0: bool,
                  printed1: seq<Pair>, done1: seq<Command>, led1: bool)
      requires printed1 == printed0 + os && done1 == done0 + Commands(os) && led1 == LedAfter(led0, Commands(os))
      requires all == os + more && Did(more, printed1, done1, led1)
      ensures Did(all, printed0, done0, led0)
    {
      CommandsAppend(os, more);
      LedAfterMore(led0, Commands(os), Commands(more));
    }

    // One connection more, after the options of the earlier ones.
    method ServeNext(line: string, ghost before: seq<Pair>, ghost all: seq<Pair>,
                     ghost printed0: seq<Pair>, ghost done0: seq<Command>, ghost led0: bool)
      requires Valid() && |line| < bufsiz && NUL !in line && Handles(line)
      requires all == before + OptionsOfLine(line) && Did(before, printed0, done0, led0)
      modifies this, strtok, verb, fileName, optLine, optStr, opt, value
      ensures Did(all, printed0, done0, led0)
    {
      ghost var printed1, done1, led1, more := printed, done, led, OptionsOfLine(line);
      Connection(line);
      DidMore(before, more, all, printed0, done0, led0, printed1, done1, led1);
    }

    method ServeNth(i: nat, lines: seq<string>, ghost printed0: seq<Pair>, ghost done0: seq<Command>, ghost led0: bool)
      requires Valid() && HandlesAll(lines) && i < |lines| && Did(AllOptions(lines[..i]), printed0, done0, led0)
      modifies this, strtok, verb, fileName, optLine, optStr, opt, value
      ensures Did(AllOptions(lines[..i + 1]), printed0, done0, led0)
    {
      OneLineMore(lines, i);
      ServeNext(lines[i], AllOptions(lines[..i]), AllOptions(lines[..i + 1]), printed0, done0, led0);
    }

    // Lines 210-221, one connection after another.
    method Serve(lines: seq<string>)
      requires Valid() && HandlesAll(lines)
      modifies this, strtok, verb, fileName, optLine, optStr, opt, value
      ensures printed == old(printed) + AllOptions(lines)
      ensures done == old(done) + Commands(AllOptions(lines))
      ensures led == LedAfter(old(led), Commands(AllOptions(lines)))
    {
      var i := 0;
      while i < |lines|
        invariant 0 <= i <= |lines| && Did(AllOptions(lines[..i]), old(printed), old(done), old(led))
      {
        ServeNth(i, lines, old(printed), old(done), old(led));
        i := i + 1;
      }
      assert lines[..i] == lines;
    }

    // HandleLine on a GET line, with the parsed target named.
    method HandleGet(regLine: array<char>, ghost line: string, ghost target: string, ghost p: Parsed)
      requires Valid() && regLine !in {verb, fileName, optLine, opt, value} && regLine !in optStr
      requires Holds(regLine[..], 0, line) && ParseLine(line) == Some(Get(target)) && 3 < verb.Length
      requires Serves(target) && Parse(StripSlash(target)) == Some(p)
      modifies this, strtok, regLine, verb, fileName, optLine, optStr, opt, value
      ensures Holds(fileName[..], 0, p.path)
      ensures printed == old(printed) + p.options
      ensures done == old(done) + Commands(p.options)
      ensures led == LedAfter(old(led), Commands(p.options))
    {
      VerbOfGet(line);
      var served := HandleLine(regLine, line);
    }

    /** A printed request is one the program serves when its pieces fit the buffers. */
    lemma PrintedRequestIsServed(p: Parsed, version: string)
      requires Printable(p) && ' ' !in Print(p) && (p.path != [] ==> p.path[0] != '/')
      requires PiecesFit(p, optLine.Length, |optStr|, slot, opt.Length, value.Length)
      requires |Print(p)| + 1 < fileName.Length
      ensures ParseLine(PrintLine(p, version)) == Some(Get("/" + Print(p)))
      ensures Serves("/" + Print(p)) && Parse(StripSlash("/" + Print(p))) == Some(p)
    {
      RequestRoundTrip(p, version);
      PrintedOptionsFit(p, optLine.Length, |optStr|, slot, opt.Length, value.Length);
      assert StripSlash("/" + Print(p)) == Print(p);
    }

    /** End to end: given the request line of a printed path and option list whose pieces fit
        the buffers, the program is left with that path in the file name, has printed those
        options in order and done what they mean, and the LED is as the last led option says:
        `last` is one past its position, or zero if there is none. */
    method HandlePrinted(regLine: array<char>, ghost p: Parsed, ghost version: string, ghost last: nat)
      requires Valid() && regLine !in {verb, fileName, optLine, opt, value} && regLine !in optStr
      requires Printable(p) && ' ' !in Print(p) && (p.path != [] ==> p.path[0] != '/')
      requires PiecesFit(p, optLine.Length, |optStr|, slot, opt.Length, value.Length)
      requires |Print(p)| + 1 < fileName.Length && 3 < verb.Length
      requires Holds(regLine[..], 0, PrintLine(p, version))
      requires LastLedOption(p.options, last)
      modifies this, strtok, regLine, verb, fileName, optLine, optStr, opt, value
      ensures Holds(fileName[..], 0, p.path)
      ensures printed == old(printed) + p.options
      ensures done == old(done) + Commands(p.options)
      ensures Means(p.options, done[|old(done)|..])
      ensures led == if last == 0 then old(led) else p.options[last - 1] == ("led", "On")
    {
      PrintedRequestIsServed(p, version);
      HandleGet(regLine, PrintLine(p, version), "/" + Print(p), p);
      LedOfLastOption(old(led), p.options, last);
      assert done[|old(done)|..] == Commands(p.options);
      CommandsMean(p.options, done[|old(done)|..]);
    }
  }
}
