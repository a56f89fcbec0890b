/**
 Request handling in `clnt_connection` of chapter6/rpi6/rpi6.c: the request line and the
 query are cut up in place with strtok, whose one cursor serves all four passes.

 `Parse` is the meaning of the query passes as a function of the string, `RequestServer.Server.Control`
 the passes themselves; `QueryRoundTrip` and `ParseIsCanonical` say what `Parse` means.
 */
module Requests {
  import opened CStrings
  import opened Options

  // ---------- the slash shift ----------

  predicate SecondSlash(s: string) {
    |s| > 1 && s[1] == '/'
  }

  // Where the shift takes character i from: it re-tests the first character on every pass,
  // so a second slash makes it take every other one.
  function ShiftSource(s: string, i: nat): nat {
    if SecondSlash(s) then 2 * i + 1 else i + 1
  }

  // The loop reads inside the buffer.
  ghost predicate ShiftFits(mem: seq<char>, s: string) {
    Holds(mem, 0, s) && s != [] && ShiftSource(s, |s| - 1) < |mem|
  }

  lemma ShiftReads(mem: seq<char>, s: string, i: nat)
    requires ShiftFits(mem, s) && i < |s|
    ensures i < ShiftSource(s, i) < |mem| && i + 1 < |mem|
  {
  }

  // Buffer contents after the shift loop ran on a string that starts with a slash.
  ghost function Shifted(mem: seq<char>, s: string): (r: seq<char>)
    requires ShiftFits(mem, s)
    ensures |r| == |mem|
  {
    seq(|mem|, i requires 0 <= i < |mem| => if i < |s| then mem[ShiftSource(s, i)] else mem[i])
  }

  ghost predicate AlwaysDropsOneSlash(s: string)
    requires s != []
  {
    forall mem :: ShiftFits(mem, s) ==> Holds(Shifted(mem, s), 0, s[1..])
  }

  lemma ShiftDropsSlash(mem: seq<char>, s: string)
    requires ShiftFits(mem, s) && !SecondSlash(s)
    ensures Holds(Shifted(mem, s), 0, s[1..])
  {
    var m := Shifted(mem, s);
    HoldsAt(mem, 0, s, |s|);
    forall k | 0 <= k < |s| - 1
      ensures m[k] == s[1..][k]
    {
      HoldsAt(mem, 0, s, k + 1);
    }
    CopyHolds(m, s[1..]);
  }

  /** The shift removes exactly the leading slash, whatever else is in the buffer, if and only
      if the next character is not a slash too. */
  lemma DropsOneSlashIff(s: string)
    requires s != [] && s[0] == '/' && NUL !in s
    ensures AlwaysDropsOneSlash(s) <==> !(|s| > 1 && s[1] == '/')
  {
    if SecondSlash(s) {
      // unlucky bytes after the string
      var n := |s|;
      var mem := s + [NUL] + seq(n, _ => 'x');
      assert mem[0..n] == s;
      assert ShiftFits(mem, s);
      assert Shifted(mem, s)[n - 1] == mem[2 * n - 1] == 'x';
      assert !Holds(Shifted(mem, s), 0, s[1..]);
    } else {
      forall mem | ShiftFits(mem, s)
        ensures Holds(Shifted(mem, s), 0, s[1..])
      {
        ShiftDropsSlash(mem, s);
      }
    }
  }

  // ---------- the query as a string function ----------

  type Pair = (string, string)

  datatype Parsed = Parsed(path: string, options: seq<Pair>)

  /** One option: the first two '='-separated tokens.  None stands for copying from NULL. */
  function ParseOption(s: string): Option<Pair> {
    var k := Skip(s, '=');
    var v := Skip(AfterToken(k, '='), '=');
    if k == [] || v == [] then None else Some((Token(k, '='), Token(v, '=')))
  }

  function ParseOptions(strs: seq<string>): Option<seq<Pair>> {
    if strs == [] then Some([])
    else
      match ParseOption(strs[0])
      case None => None
      case Some(o) =>
        match ParseOptions(strs[1..])
        case None => None
        case Some(os) => Some([o] + os)
  }

  // The text between the first and second runs of question marks.
  function Query(file: string): string {
    Token(Skip(AfterToken(file, '?'), '?'), '?')
  }

  /** Path and options of a target whose leading slash is gone.  None where the source would
      copy a token onto itself from the middle of the buffer, or copy from NULL. */
  function Parse(file: string): Option<Parsed> {
    if '?' !in file then Some(Parsed(file, []))
    else if file[0] == '?' || Query(file) == [] then None
    else
      match ParseOptions(Tokens(Query(file), '&'))
      case None => None
      case Some(os) => Some(Parsed(Token(file, '?'), os))
  }

  // ---------- printing ----------

  predicate Word(s: string) {
    Plain(s, '?') && Plain(s, '&') && Plain(s, '=')
  }

  predicate Printable(p: Parsed) {
    && '?' !in p.path
    && (p.options != [] ==> p.path != [])
    && forall i :: 0 <= i < |p.options| ==> Word(p.options[i].0) && Word(p.options[i].1)
  }

  function PrintOption(o: Pair): string {
    o.0 + "=" + o.1
  }

  function PrintOptions(os: seq<Pair>): (r: seq<string>)
    ensures |r| == |os|
  {
    seq(|os|, i requires 0 <= i < |os| => PrintOption(os[i]))
  }

  function Print(p: Parsed): string {
    if p.options == [] then p.path
    else p.path + "?" + Join(PrintOptions(p.options), '&')
  }

  /** What is printed: the path alone, then a question mark and name=value for the first option
      and an ampersand and name=value for every further one. */
  lemma PrintEquations(path: string, os: seq<Pair>, o: Pair)
    ensures Print(Parsed(path, [])) == path
    ensures Print(Parsed(path, [o])) == path + "?" + (o.0 + "=" + o.1)
    ensures os != [] ==> Print(Parsed(path, os + [o])) == Print(Parsed(path, os)) + "&" + (o.0 + "=" + o.1)
  {
    assert PrintOptions([o]) == [PrintOption(o)];
    if os != [] {
      var strs, last := PrintOptions(os), PrintOption(o);
      assert PrintOptions(os + [o]) == strs + [last];
      JoinOneMore(strs, '&', last);
      assert path + "?" + (Join(strs, '&') + "&" + last) == path + "?" + Join(strs, '&') + "&" + last;
    }
  }

  lemma OptionRoundTrip(o: Pair)
    requires Word(o.0) && Word(o.1)
    ensures ParseOption(PrintOption(o)) == Some(o)
    ensures Plain(PrintOption(o), '&') && '?' !in PrintOption(o)
  {
    var s := PrintOption(o);
    assert s == o.0 + ("=" + o.1);
    assert o.0[0] in o.0 && o.1[0] in o.1;
    assert Skip(s, '=') == s;
    TokenOfPlain(o.0, '=', "=" + o.1);
    assert ("=" + o.1)[1..] == o.1;
    assert Skip(o.1, '=') == o.1;
    TokenOfPlain(o.1, '=', []);
    assert o.1 + [] == o.1;
  }

  lemma {:induction false} OptionsRoundTrip(os: seq<Pair>)
    requires forall i :: 0 <= i < |os| ==> Word(os[i].0) && Word(os[i].1)
    ensures ParseOptions(PrintOptions(os)) == Some(os)
    ensures forall i :: 0 <= i < |os| ==> Plain(PrintOptions(os)[i], '&') && '?' !in PrintOptions(os)[i]
  {
    if os == [] {
    } else {
      var strs := PrintOptions(os);
      OptionRoundTrip(os[0]);
      OptionsRoundTrip(os[1..]);
      assert strs[0] == PrintOption(os[0]) && strs[1..] == PrintOptions(os[1..]);
      assert [os[0]] + os[1..] == os;
      assert forall i :: 1 <= i < |os| ==> strs[i] == strs[1..][i - 1];
    }
  }

  // A path and a query with no further question mark are told apart.
  lemma SplitsAtMark(path: string, q: string)
    requires Plain(path, '?') && Plain(q, '?')
    ensures var file := path + "?" + q;
      '?' in file && file[0] != '?' && Token(file, '?') == path && Query(file) == q
  {
    var file := path + "?" + q;
    var rest := "?" + q;
    assert file == path + rest && rest[1..] == q;
    assert file[|path|] == '?' && path[0] in path;
    FirstToken(path, '?', rest);
    FirstToken(q, '?', []);
    assert q + [] == q;
  }

  /** The options of a printed list are cut apart as they were printed. */
  lemma PrintedOptionTokens(p: Parsed)
    requires Printable(p) && p.options != []
    ensures Tokens(Query(Print(p)), '&') == PrintOptions(p.options)
    ensures Query(Print(p)) == Join(PrintOptions(p.options), '&') != []
    ensures '?' in Print(p) && Print(p)[0] != '?' && Token(Print(p), '?') == p.path
  {
    var strs := PrintOptions(p.options);
    OptionsRoundTrip(p.options);
    TokensOfJoin(strs, '&');
    JoinChars(strs, '&', '?');
    SplitsAtMark(p.path, Join(strs, '&'));
  }

  /** Printing a path and options and running the '?', '&' and '=' passes gives them back, in
      order. */
  lemma QueryRoundTrip(p: Parsed)
    requires Printable(p)
    ensures Parse(Print(p)) == Some(p)
  {
    if p.options == [] {
    } else {
      PrintedOptionTokens(p);
      OptionsRoundTrip(p.options);
    }
  }

  // The next token is nonempty, free of the delimiter, and adds no characters.
  lemma FirstTokenOmits(s: string, d: char, c: char)
    requires c !in s
    ensures var k := Skip(s, d);
      k != [] ==> Plain(Token(k, d), d) && c !in Token(k, d) && c !in AfterToken(k, d)
  {
    SkipIsSuffix(s, d);
    CutOmits(s, d, c);
    CutOmits(Skip(s, d), d, c);
    TokenIsPrefix(Skip(s, d), d);
  }

  lemma OptionIsWords(s: string, o: Pair)
    requires ParseOption(s) == Some(o) && '?' !in s && '&' !in s
    ensures Word(o.0) && Word(o.1)
  {
    var k := Skip(s, '=');
    var a := AfterToken(k, '=');
    FirstTokenOmits(s, '=', '?');
    FirstTokenOmits(s, '=', '&');
    FirstTokenOmits(a, '=', '?');
    FirstTokenOmits(a, '=', '&');
  }

  lemma {:induction false} OptionsAreWords(strs: seq<string>, os: seq<Pair>)
    requires ParseOptions(strs) == Some(os)
    requires forall s :: s in strs ==> '?' !in s && '&' !in s
    ensures forall i :: 0 <= i < |os| ==> Word(os[i].0) && Word(os[i].1)
  {
    if strs == [] {
    } else {
      OptionIsWords(strs[0], os[0]);
      OptionsAreWords(strs[1..], os[1..]);
    }
  }

  /** An option is its first two '='-separated tokens; whatever follows the second is dropped. */
  lemma OptionIsFirstTwoTokens(s: string)
    ensures var t := Tokens(s, '=');
      ParseOption(s) == if |t| >= 2 then Some((t[0], t[1])) else None
  {
    var k := Skip(s, '=');
    TokensUnfold(s, '=');
    if k != [] {
      TokensUnfold(AfterToken(k, '='), '=');
    }
  }

  // Path and options from the two tokens a target is cut into.
  function ParseParts(path: string, query: string): Option<Parsed> {
    match ParseOptions(Tokens(query, '&'))
    case None => None
    case Some(os) => Some(Parsed(path, os))
  }

  /** A target with a question mark is its first two '?'-separated tokens, path and query;
      whatever follows the second is dropped. */
  lemma TargetIsFirstTwoTokens(file: string)
    requires '?' in file
    ensures var t := Tokens(file, '?');
      Parse(file) == if file[0] != '?' && |t| >= 2 then ParseParts(t[0], t[1]) else None
  {
    if file[0] != '?' {
      var rest := AfterToken(file, '?');
      assert Skip(file, '?') == file;
      TokensUnfold(file, '?');
      TokensUnfold(rest, '?');
      assert Token([], '?') == [];
      SkipIsSuffix(rest, '?');
    }
  }

  /** Whatever text is parsed, the result is a printable path and option list, and parsing
      its printed form gives the same result. */
  lemma ParseIsCanonical(file: string)
    requires Parse(file).Some?
    ensures Printable(Parse(file).value)
    ensures Parse(Print(Parse(file).value)) == Parse(file)
  {
    var p := Parse(file).value;
    if '?' in file {
      var q := Query(file);
      TokenIsPrefix(file, '?');
      TokenIsPrefix(Skip(AfterToken(file, '?'), '?'), '?');
      TokensArePlain(q, '&', '?');
      OptionsAreWords(Tokens(q, '&'), p.options);
    }
    QueryRoundTrip(p);
  }

  // ---------- what an option does ----------

  datatype Command = LedOn | LedOff | PlayMusic | RunMotor | Ignored

  function CommandOf(o: Pair): Command {
    if o == ("led", "On") then LedOn
    else if o == ("led", "Off") then LedOff
    else if o == ("music", "Play") then PlayMusic
    else if o == ("motor", "On") then RunMotor
    else Ignored
  }

  /** Which option means which command; every other option is ignored. */
  lemma OptionCommands(o: Pair)
    ensures CommandOf(o) == PlayMusic <==> o == ("music", "Play")
    ensures CommandOf(o) == RunMotor <==> o == ("motor", "On")
    ensures CommandOf(o) == LedOn <==> o == ("led", "On")
    ensures CommandOf(o) == LedOff <==> o == ("led", "Off")
  {
    assert "music"[0] != "motor"[0] || "music"[1] != "motor"[1];
    assert |"led"| != |"music"| && |"On"| != |"Off"| && |"On"| != |"Play"|;
  }

  function Commands(os: seq<Pair>): (r: seq<Command>)
    ensures |r| == |os|
  {
    seq(|os|, i requires 0 <= i < |os| => CommandOf(os[i]))
  }

  // Each command is the one its option asks for.
  ghost predicate Means(os: seq<Pair>, cs: seq<Command>) {
    && |cs| == |os|
    && forall i :: 0 <= i < |os| ==>
         && (cs[i] == PlayMusic <==> os[i] == ("music", "Play"))
         && (cs[i] == RunMotor <==> os[i] == ("motor", "On"))
         && (cs[i] == LedOn <==> os[i] == ("led", "On"))
         && (cs[i] == LedOff <==> os[i] == ("led", "Off"))
  }

  /** They are the commands of the options and no others. */
  lemma CommandsMean(os: seq<Pair>, cs: seq<Command>)
    ensures Means(os, cs) <==> cs == Commands(os)
  {
    forall i | 0 <= i < |os| {
      OptionCommands(os[i]);
    }
    if Means(os, cs) {
      forall i | 0 <= i < |os|
        ensures cs[i] == Commands(os)[i]
      {
        OptionCommands(os[i]);
        assert Commands(os)[i] == CommandOf(os[i]);
      }
    }
  }

  lemma CommandsAppend(a: seq<Pair>, b: seq<Pair>)
    ensures Commands(a + b) == Commands(a) + Commands(b)
  {
  }

  lemma CountOneMore<T>(s: seq<T>, x: T)
    requires s != []
    ensures var n := |s| - 1;
      multiset(s)[x] == multiset(s[..n])[x] + (if s[n] == x then 1 else 0)
  {
    var n := |s| - 1;
    assert s == s[..n] + [s[n]];
  }

  // Lists that have x and y at the same positions have them equally often.
  lemma {:induction false} CountsAgree<A, B>(s: seq<A>, x: A, t: seq<B>, y: B)
    requires |s| == |t| && forall i :: 0 <= i < |s| ==> (s[i] == x <==> t[i] == y)
    ensures multiset(s)[x] == multiset(t)[y]
    decreases |s|
  {
    if s == [] {
    } else {
      var n := |s| - 1;
      CountsAgree(s[..n], x, t[..n], y);
      CountOneMore(s, x);
      CountOneMore(t, y);
    }
  }

  /** A list of options means as many music and motor commands as it has the options for them. */
  lemma CommandCounts(os: seq<Pair>)
    ensures multiset(Commands(os))[PlayMusic] == multiset(os)[("music", "Play")]
    ensures multiset(Commands(os))[RunMotor] == multiset(os)[("motor", "On")]
  {
    forall i | 0 <= i < |os|
      ensures CommandOf(os[i]) == PlayMusic <==> os[i] == ("music", "Play")
      ensures CommandOf(os[i]) == RunMotor <==> os[i] == ("motor", "On")
    {
      OptionCommands(os[i]);
    }
    CountsAgree(Commands(os), PlayMusic, os, ("music", "Play"));
    CountsAgree(Commands(os), RunMotor, os, ("motor", "On"));
  }

  function LedAfter(led: bool, cs: seq<Command>): bool {
    if cs == [] then led
    else
      match cs[|cs| - 1]
      case LedOn => true
      case LedOff => false
      case _ => LedAfter(led, cs[..|cs| - 1])
  }

  predicate SetsLed(c: Command) {
    c == LedOn || c == LedOff
  }

  /** The LED ends at the value of the last led option, and keeps its level without one. */
  lemma {:induction false} LastLedOptionWins(led: bool, cs: seq<Command>, i: nat)
    requires i <= |cs| && forall j :: i <= j < |cs| ==> !SetsLed(cs[j])
    requires i == 0 || SetsLed(cs[i - 1])
    ensures LedAfter(led, cs) == if i == 0 then led else cs[i - 1] == LedOn
  {
    if i == |cs| {
    } else {
      assert !SetsLed(cs[|cs| - 1]);
      LastLedOptionWins(led, cs[..|cs| - 1], i);
    }
  }

  // Option last - 1 is the last led=On or led=Off; with last zero there is none.
  predicate LastLedOption(os: seq<Pair>, last: nat) {
    && last <= |os|
    && (forall j :: last <= j < |os| ==> os[j] != ("led", "On") && os[j] != ("led", "Off"))
    && (last == 0 || os[last - 1] == ("led", "On") || os[last - 1] == ("led", "Off"))
  }

  /** Every option list has exactly one such position. */
  lemma {:induction false} LastLedOptionUnique(os: seq<Pair>)
    ensures exists last: nat :: LastLedOption(os, last)
    ensures forall last: nat, last': nat :: LastLedOption(os, last) && LastLedOption(os, last') ==> last == last'
  {
    if os == [] {
      assert LastLedOption(os, 0);
    } else {
      var n := |os| - 1;
      LastLedOptionUnique(os[..n]);
      if os[n] == ("led", "On") || os[n] == ("led", "Off") {
        assert LastLedOption(os, n + 1);
      } else {
        var last: nat :| LastLedOption(os[..n], last);
        assert LastLedOption(os, last);
      }
    }
  }

  lemma LedOfLastOption(led: bool, os: seq<Pair>, last: nat)
    requires LastLedOption(os, last)
    ensures LedAfter(led, Commands(os)) == if last == 0 then led else os[last - 1] == ("led", "On")
  {
    forall j | 0 <= j < |os|
      ensures SetsLed(Commands(os)[j]) <==> os[j] == ("led", "On") || os[j] == ("led", "Off")
    {
      OptionCommands(os[j]);
    }
    if last > 0 {
      OptionCommands(os[last - 1]);
    }
    LastLedOptionWins(led, Commands(os), last);
  }

  // ---------- the request line ----------

  datatype Request = Post | Unknown | Get(target: string)

  function ParseLine(line: string): Option<Request> {
    var k := Skip(line, ' ');
    if k == [] then None
    else if Token(k, ' ') == "POST" then Some(Post)
    else if Token(k, ' ') != "GET" then Some(Unknown)
    else
      var t := Skip(AfterToken(k, ' '), ' ');
      if t == [] then None else Some(Get(Token(t, ' ')))
  }

  lemma GetVerb(rest: string)
    requires rest != [] && rest[0] == ' '
    ensures Skip("GET" + rest, ' ') == "GET" + rest && Token("GET" + rest, ' ') == "GET"
    ensures AfterToken("GET" + rest, ' ') == rest[1..]
  {
    FirstToken("GET", ' ', rest);
  }

  lemma GetLineRoundTrip(target: string, version: string)
    requires Plain(target, ' ')
    ensures ParseLine("GET " + target + " " + version) == Some(Get(target))
  {
    var tail := " " + version;
    var text := target + tail;
    var rest := " " + text;
    assert "GET " + target + " " + version == "GET" + rest;
    assert rest[1..] == text;
    GetVerb(rest);
    FirstToken(target, ' ', tail);
  }

  /** The method is the first space-separated token: POST has no effect, GET serves the second
      token, any other method is refused; without the tokens the source copies from NULL. */
  lemma LineIsFirstTwoTokens(line: string)
    ensures var w := Tokens(line, ' ');
      ParseLine(line) ==
      if w == [] then None
      else if w[0] == "POST" then Some(Post)
      else if w[0] != "GET" then Some(Unknown)
      else if |w| == 1 then None
      else Some(Get(w[1]))
  {
    var k := Skip(line, ' ');
    TokensUnfold(line, ' ');
    if k != [] {
      TokensUnfold(AfterToken(k, ' '), ' ');
    }
  }

  // A line parsed as GET has that method.
  lemma VerbOfGet(line: string)
    requires ParseLine(line).Some? && ParseLine(line).value.Get?
    ensures Token(Skip(line, ' '), ' ') == "GET"
  {
  }

  function StripSlash(target: string): string {
    if target != [] && target[0] == '/' then target[1..] else target
  }

  // The request line for a path and option list.
  function PrintLine(p: Parsed, version: string): string {
    "GET " + ("/" + Print(p)) + " " + version
  }

  /** End to end: the request line for a printed path and option list, in which no piece is
      empty and the path does not start with a second slash, yields that target, loses exactly
      the leading slash, and parses back to that path and option list, in order. */
  lemma {:induction false} RequestRoundTrip(p: Parsed, version: string)
    requires Printable(p) && ' ' !in Print(p)
    requires p.path != [] ==> p.path[0] != '/'
    ensures var target := "/" + Print(p);
      && ParseLine(PrintLine(p, version)) == Some(Get(target))
      && !SecondSlash(target)
      && Parse(StripSlash(target)) == Some(p)
  {
    var target := "/" + Print(p);
    GetLineRoundTrip(target, version);
    assert target[1..] == Print(p);
    QueryRoundTrip(p);
    assert Print(p) != [] ==> p.path != [] && Print(p)[0] == p.path[0];
  }

  // ---------- many requests ----------

  // The options of a request line; only a GET line carries any.
  function OptionsOfLine(line: string): seq<Pair> {
    match ParseLine(line)
    case Some(Get(target)) =>
      (match Parse(StripSlash(target))
       case None => []
       case Some(p) => p.options)
    case _ => []
  }

  /** The options of one request line after another. */
  function AllOptions(lines: seq<string>): seq<Pair> {
    if lines == [] then []
    else AllOptions(lines[..|lines| - 1]) + OptionsOfLine(lines[|lines| - 1])
  }

  lemma {:induction false} LedAfterMore(led: bool, cs: seq<Command>, more: seq<Command>)
    ensures LedAfter(led, cs + more) == LedAfter(LedAfter(led, cs), more)
    decreases |more|
  {
    if more == [] {
      assert cs + more == cs;
    } else {
      var n := |more| - 1;
      var all := cs + more;
      assert all[|all| - 1] == more[n] && all[..|all| - 1] == cs + more[..n];
      LedAfterMore(led, cs, more[..n]);
    }
  }

  lemma OneLineMore(lines: seq<string>, i: nat)
    requires i < |lines|
    ensures AllOptions(lines[..i + 1]) == AllOptions(lines[..i]) + OptionsOfLine(lines[i])
  {
    assert lines[..i + 1][..i] == lines[..i];
  }

  // ---------- buffer sizes and single steps ----------

  // Buffer sizes that hold every piece of a printed path and option list.
  predicate PiecesFit(p: Parsed, optLine: nat, slots: nat, slot: nat, opt: nat, value: nat) {
    p.options != [] ==>
      && |Join(PrintOptions(p.options), '&')| < optLine
      && |p.options| <= slots
      && forall i :: 0 <= i < |p.options| ==>
           |p.options[i].0| + 1 + |p.options[i].1| < slot && |p.options[i].0| < opt && |p.options[i].1| < value
  }

  predicate OptionFits(s: string, slot: nat, opt: nat, value: nat) {
    && |s| < slot
    && match ParseOption(s)
       case None => true
       case Some(o) => |o.0| < opt && |o.1| < value
  }

  // What the buffers must hold for the option passes on a file name.
  predicate OptionsFit(file: string, optLine: nat, slots: nat, slot: nat, opt: nat, value: nat) {
    '?' in file ==>
      var strs := Tokens(Query(file), '&');
      && |Query(file)| < optLine
      && |strs| <= slots
      && forall i :: 0 <= i < |strs| ==> OptionFits(strs[i], slot, opt, value)
  }

  lemma ParseOptionsIndexed(strs: seq<string>, i: nat)
    requires ParseOptions(strs).Some? && i < |strs|
    ensures |ParseOptions(strs).value| == |strs|
    ensures ParseOption(strs[i]) == Some(ParseOptions(strs).value[i])
  {
    if i > 0 {
      ParseOptionsIndexed(strs[1..], i - 1);
    } else if |strs| > 1 {
      ParseOptionsIndexed(strs[1..], 0);
    }
  }

  lemma OptionCount(strs: seq<string>)
    requires ParseOptions(strs).Some?
    ensures |ParseOptions(strs).value| == |strs|
  {
    if strs == [] {
    } else {
      OptionCount(strs[1..]);
    }
  }

  lemma OneMore<T>(s: seq<T>, i: nat)
    requires i < |s|
    ensures s[..i + 1] == s[..i] + [s[i]]
  {
  }

  lemma LedAfterOneMore(led: bool, cs: seq<Command>, i: nat)
    requires i < |cs|
    ensures LedAfter(led, cs[..i + 1]) == LedAfter(LedAfter(led, cs[..i]), [cs[i]])
  {
    assert cs[..i + 1][..i] == cs[..i];
    assert [cs[i]][..0] == [];
  }

  /** A printed path and option list whose pieces fit the buffers fits once it is cut up. */
  lemma PrintedOptionsFit(p: Parsed, optLine: nat, slots: nat, slot: nat, opt: nat, value: nat)
    requires Printable(p) && PiecesFit(p, optLine, slots, slot, opt, value)
    ensures OptionsFit(Print(p), optLine, slots, slot, opt, value)
  {
    if p.options != [] {
      PrintedOptionTokens(p);
      var strs := PrintOptions(p.options);
      forall i | 0 <= i < |strs|
        ensures OptionFits(strs[i], slot, opt, value)
      {
        OptionRoundTrip(p.options[i]);
      }
    }
  }
}
