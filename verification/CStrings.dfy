/**
 NUL-terminated strings in character arrays, and the library calls on them that
 chapter6/rpi6/rpi6.c relies on: strcpy, strcmp and strtok with its hidden cursor.
 */
module CStrings {

  const NUL := '\0'

  /** The buffer holds the C string s at position i. */
  ghost predicate Holds(mem: seq<char>, i: nat, s: string) {
    && i + |s| < |mem|
    && mem[i..i + |s|] == s
    && mem[i + |s|] == NUL
    && NUL !in s
  }

  lemma HoldsAt(mem: seq<char>, i: nat, s: string, k: nat)
    requires Holds(mem, i, s) && k <= |s|
    ensures mem[i + k] == if k < |s| then s[k] else '\0'
    ensures k < |s| ==> s[k] != '\0'
    ensures Holds(mem, i + k, s[k..])
  {
    if k < |s| {
      assert mem[i + k] == mem[i..i + |s|][k];
    }
    assert mem[i + k..i + |s|] == s[k..];
  }

  // The character at the start of a held string, and the string after it.
  lemma Uncons(mem: seq<char>, i: nat, s: string)
    requires Holds(mem, i, s)
    ensures mem[i] == if s == [] then NUL else s[0]
    ensures s != [] ==> s[0] != NUL && Holds(mem, i + 1, s[1..])
  {
    HoldsAt(mem, i, s, 0);
    if s != [] {
      HoldsAt(mem, i, s, 1);
    }
  }

  // A prefix of a held string becomes a string of its own when a NUL is stored after it.
  lemma CutHolds(mem: seq<char>, i: nat, s: string, k: nat)
    requires Holds(mem, i, s) && k < |s|
    ensures Holds(mem[i + k := NUL], i, s[..k])
    ensures Holds(mem[i + k := NUL], i + k + 1, s[k + 1..])
  {
    var m := mem[i + k := NUL];
    assert m[i..i + k] == mem[i..i + |s|][..k];
    HoldsAt(mem, i, s, k + 1);
    assert m[i + k + 1..i + |s|] == mem[i + k + 1..i + |s|];
  }

  // Ending a piece of a held string: whether a NUL is there already, and the strings this leaves.
  lemma CutInTwo(mem: seq<char>, i: nat, s: string, k: nat, a: string, b: string)
    requires Holds(mem, i, s) && k <= |s| && a == s[..k] && b == if k < |s| then s[k + 1..] else []
    ensures mem[i + k] == NUL <==> k == |s|
    ensures Holds(mem[i + k := NUL], i, a)
    ensures Holds(mem[i + k := NUL], i + k + (if k < |s| then 1 else 0), b)
  {
    HoldsAt(mem, i, s, k);
    if k < |s| {
      CutHolds(mem, i, s, k);
    } else {
      assert mem[i + k := NUL] == mem && a == s;
    }
  }

  // A finished copy.
  lemma CopyHolds(mem: seq<char>, s: string)
    requires |s| < |mem| && NUL !in s && mem[|s|] == NUL
    requires forall k :: 0 <= k < |s| ==> mem[k] == s[k]
    ensures Holds(mem, 0, s)
  {
    assert mem[0..|s|] == s;
  }

  // ---------- tokens ----------

  function Skip(s: string, d: char): (r: string)
    ensures |r| <= |s|
  {
    if s != [] && s[0] == d then Skip(s[1..], d) else s
  }

  function Token(s: string, d: char): (r: string)
    ensures |r| <= |s|
  {
    if s == [] || s[0] == d then [] else [s[0]] + Token(s[1..], d)
  }

  /** What is skipped is delimiters only, and what follows does not start with one. */
  lemma {:induction false} SkipIsSuffix(s: string, d: char)
    ensures var r := Skip(s, d);
      && r == s[|s| - |r|..] && (r != [] ==> r[0] != d)
      && forall q :: 0 <= q < |s| - |r| ==> s[q] == d
  {
    if s != [] && s[0] == d {
      SkipIsSuffix(s[1..], d);
    }
  }

  lemma {:induction false} TokenIsPrefix(s: string, d: char)
    ensures var r := Token(s, d); r == s[..|r|] && d !in r && (|r| < |s| ==> s[|r|] == d)
  {
    if s != [] && s[0] != d {
      TokenIsPrefix(s[1..], d);
    }
  }

  function AfterToken(s: string, d: char): string {
    var n := |Token(s, d)|;
    if n < |s| then s[n + 1..] else []
  }

  /** What repeated strtok calls with one delimiter return. */
  function Tokens(s: string, d: char): seq<string>
    decreases |s|
  {
    var k := Skip(s, d);
    if k == [] then [] else [Token(k, d)] + Tokens(AfterToken(k, d), d)
  }

  lemma TokensUnfold(s: string, d: char)
    ensures var k := Skip(s, d);
      Tokens(s, d) == if k == [] then [] else [Token(k, d)] + Tokens(AfterToken(k, d), d)
  {
  }

  predicate Plain(s: string, d: char) {
    s != [] && d !in s
  }

  function Join(parts: seq<string>, d: char): string {
    if |parts| == 0 then []
    else if |parts| == 1 then parts[0]
    else parts[0] + [d] + Join(parts[1..], d)
  }

  lemma {:induction false} TokenOfPlain(a: string, d: char, rest: string)
    requires d !in a && (rest == [] || rest[0] == d)
    ensures Token(a + rest, d) == a
    ensures AfterToken(a + rest, d) == if rest == [] then [] else rest[1..]
  {
    if a == [] {
      assert a + rest == rest;
    } else {
      var all := a + rest;
      assert all[0] == a[0] && all[0] != d && all[1..] == a[1..] + rest;
      TokenOfPlain(a[1..], d, rest);
      assert Token(all, d) == [a[0]] + a[1..] == a;
    }
  }

  // The first token of a plain part and what follows it.
  lemma FirstToken(a: string, d: char, rest: string)
    requires Plain(a, d) && (rest == [] || rest[0] == d)
    ensures Skip(a + rest, d) == a + rest && Token(a + rest, d) == a
    ensures AfterToken(a + rest, d) == if rest == [] then [] else rest[1..]
    ensures Tokens(a + rest, d) == [a] + Tokens(if rest == [] then [] else rest[1..], d)
    ensures a + rest != [] && (a + rest)[0] == a[0]
  {
    assert a[0] in a;
    assert Skip(a + rest, d) == a + rest;
    TokenOfPlain(a, d, rest);
  }

  // parts are exactly the tokens of s.
  ghost predicate CutsInto(s: string, d: char, parts: seq<string>) {
    Tokens(s, d) == parts
  }

  lemma OneToken(a: string, d: char)
    requires Plain(a, d)
    ensures Tokens(a, d) == [a]
  {
    assert a + [] == a;
    FirstToken(a, d, []);
  }

  lemma JoinStep(a: string, others: seq<string>, d: char)
    requires Plain(a, d)
    ensures var s := a + [d] + Join(others, d);
      Tokens(s, d) == [a] + Tokens(Join(others, d), d)
  {
    var rest := [d] + Join(others, d);
    assert rest[1..] == Join(others, d);
    assert a + [d] + Join(others, d) == a + rest;
    FirstToken(a, d, rest);
  }

  lemma {:induction false} JoinIsCut(parts: seq<string>, d: char, s: string)
    requires forall i :: 0 <= i < |parts| ==> Plain(parts[i], d)
    requires s == Join(parts, d)
    ensures CutsInto(s, d, parts)
    ensures |parts| > 0 ==> s != []
  {
    if parts == [] {
    } else {
      var a, others := parts[0], parts[1..];
      var t := Join(others, d);
      JoinIsCut(others, d, t);
      assert [a] + others == parts;
      if others == [] {
        OneToken(a, d);
      } else {
        JoinStep(a, others, d);
      }
    }
  }

  /** strtok undoes joining: nonempty parts free of the delimiter come back in order. */
  lemma TokensOfJoin(parts: seq<string>, d: char)
    requires forall i :: 0 <= i < |parts| ==> Plain(parts[i], d)
    ensures Tokens(Join(parts, d), d) == parts
    ensures |parts| > 0 ==> Join(parts, d) != []
  {
    JoinIsCut(parts, d, Join(parts, d));
  }

  /** The equations that determine the tokens of any text: the empty text has none, a delimiter
      in front of a text adds none, and a nonempty part free of the delimiter is one, alone or
      before a delimiter. */
  lemma TokensEquations(a: string, d: char, s: string)
    ensures Tokens([], d) == []
    ensures Tokens([d] + s, d) == Tokens(s, d)
    ensures a != [] && d !in a ==> Tokens(a, d) == [a] && Tokens(a + ([d] + s), d) == [a] + Tokens(s, d)
  {
    assert ([d] + s)[1..] == s;
    assert Skip([d] + s, d) == Skip(s, d);
    if a != [] && d !in a {
      OneToken(a, d);
      FirstToken(a, d, [d] + s);
    }
  }

  // Joining one more part.
  lemma {:induction false} JoinOneMore(parts: seq<string>, d: char, x: string)
    requires parts != []
    ensures Join(parts + [x], d) == Join(parts, d) + [d] + x
  {
    var all := parts + [x];
    assert all[0] == parts[0] && all[1..] == parts[1..] + [x];
    if |parts| == 1 {
      assert all[1..] == [x] && Join([x], d) == x;
    } else {
      JoinOneMore(parts[1..], d, x);
      assert Join(all, d) == parts[0] + [d] + (Join(parts[1..], d) + [d] + x);
    }
  }

  // Cutting invents no characters.
  lemma CutOmits(s: string, d: char, c: char)
    requires c !in s
    ensures c !in Skip(s, d) && c !in Token(s, d) && c !in AfterToken(s, d)
  {
    SkipIsSuffix(s, d);
    TokenIsPrefix(s, d);
  }

  /** Every token is nonempty and free of the delimiter, and has none but the text's characters. */
  lemma {:induction false} TokensArePlain(s: string, d: char, c: char)
    requires c !in s
    ensures forall t :: t in Tokens(s, d) ==> Plain(t, d) && c !in t
    decreases |s|
  {
    var k := Skip(s, d);
    SkipIsSuffix(s, d);
    if k == [] {
    } else {
      CutOmits(s, d, c);
      CutOmits(k, d, c);
      TokenIsPrefix(k, d);
      TokensArePlain(AfterToken(k, d), d, c);
    }
  }

  lemma JoinChars(parts: seq<string>, d: char, c: char)
    requires c != d && forall p :: p in parts ==> c !in p
    ensures c !in Join(parts, d)
  {
    if |parts| > 1 {
      JoinChars(parts[1..], d, c);
    }
  }

  // ---------- the library calls ----------

  // strcpy(dst, src + i); src and dst are different arrays, or the copy is of a string onto itself.
  method StrCpy(dst: array<char>, src: array<char>, i: nat, ghost s: string)
    requires Holds(src[..], i, s) && |s| < dst.Length
    requires dst != src || i == 0
    modifies dst
    ensures Holds(dst[..], 0, s)
    ensures dst == src ==> dst[..] == old(dst[..])
  {
    var k := 0;
    HoldsAt(src[..], i, s, 0);
    while src[i + k] != NUL
      invariant k <= |s|
      invariant dst != src ==> src[..] == old(src[..])
      invariant dst == src ==> dst[..] == old(dst[..])
      invariant Holds(src[..], i, s) && src[i + k] == (if k < |s| then s[k] else NUL)
      invariant k < |s| ==> s[k] != NUL
      invariant forall q :: 0 <= q < k ==> dst[q] == s[q]
      decreases |s| - k
    {
      assert k < |s|;
      dst[k] := src[i + k];
      k := k + 1;
      assert dst != src ==> src[..] == old(src[..]);
      HoldsAt(src[..], i, s, k);
    }
    dst[k] := NUL;
    CopyHolds(dst[..], s);
  }

  // !strcmp(a, literal)
  method StrEq(a: array<char>, ghost s: string, literal: string) returns (eq: bool)
    requires Holds(a[..], 0, s) && NUL !in literal
    ensures eq == (s == literal)
  {
    var k := 0;
    eq := true;
    while k < |literal|
      invariant k <= |literal| && k <= |s|
      invariant s[..k] == literal[..k]
    {
      HoldsAt(a[..], 0, s, k);
      assert literal[k] in literal;
      if a[k] != literal[k] {
        assert k < |s| ==> s[k] != literal[k];
        return false;
      }
      k := k + 1;
    }
    HoldsAt(a[..], 0, s, k);
    eq := a[k] == NUL;
  }

  // strstr(a, "c") != NULL for a one-character pattern
  method HasChar(a: array<char>, ghost s: string, c: char) returns (found: bool)
    requires Holds(a[..], 0, s) && c != NUL
    ensures found == (c in s)
  {
    var k := 0;
    HoldsAt(a[..], 0, s, 0);
    while a[k] != NUL
      invariant k <= |s| && a[k] == (if k < |s| then s[k] else NUL)
      invariant c !in s[..k]
      decreases |s| - k
    {
      if a[k] == c {
        return true;
      }
      k := k + 1;
      HoldsAt(a[..], 0, s, k);
    }
    HoldsAt(a[..], 0, s, k);
    return false;
  }

  /** strtok's hidden state: the buffer being cut and the position to go on from.  `rest` is
      the string still to be cut. */
  class Tokenizer {
    var buf: array<char>
    var cur: nat
    ghost var rest: string

    ghost predicate Valid()
      reads this, buf
    {
      Holds(buf[..], cur, rest)
    }

    constructor (buf: array<char>, ghost s: string)
      requires Holds(buf[..], 0, s)
      ensures Valid() && this.buf == buf && rest == s && cur == 0
    {
      this.buf, cur, rest := buf, 0, s;
    }

    // strtok(str, d) is Begin(str) followed by Next(d).
    method Begin(str: array<char>, ghost s: string)
      requires Holds(str[..], 0, s)
      modifies this
      ensures Valid() && buf == str && cur == 0 && rest == s
    {
      buf, cur, rest := str, 0, s;
    }

    // strspn: past the leading delimiters.
    method SkipFrom(d: char) returns (start: nat)
      requires Valid() && d != NUL
      ensures start == cur + (|rest| - |Skip(rest, d)|)
      ensures Holds(buf[..], start, Skip(rest, d))
    {
      start := cur;
      ghost var r := rest;
      Uncons(buf[..], start, r);
      while buf[start] == d
        invariant start == cur + (|rest| - |r|) && |r| <= |rest|
        invariant Holds(buf[..], start, r) && buf[start] == (if r == [] then NUL else r[0])
        invariant Skip(r, d) == Skip(rest, d)
        decreases |r|
      {
        Uncons(buf[..], start, r);
        start, r := start + 1, r[1..];
        Uncons(buf[..], start, r);
      }
    }

    // strcspn: to the delimiter or the end.
    method TokenEnd(start: nat, ghost k: string, d: char) returns (end: nat)
      requires Holds(buf[..], start, k) && d != NUL
      ensures end == start + |Token(k, d)|
    {
      end := start;
      ghost var r := k;
      Uncons(buf[..], start, r);
      while buf[end] != d && buf[end] != NUL
        invariant Holds(buf[..], end, r) && buf[end] == (if r == [] then NUL else r[0])
        invariant r != [] ==> r[0] != NUL
        invariant |Token(k, d)| == (end - start) + |Token(r, d)|
        invariant end >= start
        decreases |r|
      {
        Uncons(buf[..], end, r);
        end, r := end + 1, r[1..];
        Uncons(buf[..], end, r);
      }
    }

    // Ends the token with a NUL unless the string ended there, and saves the cursor.
    method CutAt(start: nat, ghost k: string, d: char, end: nat)
      requires Holds(buf[..], start, k) && k != [] && end == start + |Token(k, d)|
      modifies this, buf
      ensures Valid() && buf == old(buf)
      ensures Holds(buf[..], start, Token(k, d)) && rest == AfterToken(k, d)
      ensures cur == end + (if |Token(k, d)| < |k| then 1 else 0)
      ensures forall q :: 0 <= q < start ==> buf[q] == old(buf[q])
    {
      ghost var mem := buf[..];
      TokenIsPrefix(k, d);
      CutInTwo(mem, start, k, |Token(k, d)|, Token(k, d), AfterToken(k, d));
      rest := AfterToken(k, d);
      if buf[end] == NUL {
        cur := end;
        assert mem[end := NUL] == mem;
      } else {
        buf[end] := NUL;
        cur := end + 1;
      }
      assert buf[..] == mem[end := NUL];
    }

    // strtok(NULL, d); a negative result stands for NULL.
    method Next(d: char) returns (tok: int)
      requires Valid() && d != NUL
      modifies this, buf
      ensures Valid() && buf == old(buf)
      ensures var k := Skip(old(rest), d);
        if k == [] then
          tok < 0 && rest == [] && buf[..] == old(buf[..])
        else
          && tok == old(cur) + (|old(rest)| - |k|)
          && Holds(buf[..], tok, Token(k, d))
          && rest == AfterToken(k, d)
          && cur == tok + |Token(k, d)| + (if |Token(k, d)| < |k| then 1 else 0)
          && forall q :: 0 <= q < tok ==> buf[q] == old(buf[q])
    {
      var start := SkipFrom(d);
      ghost var k := Skip(rest, d);
      Uncons(buf[..], start, k);
      if buf[start] == NUL {
        cur, rest := start, [];
        return -1;
      }
      var end := TokenEnd(start, k, d);
      CutAt(start, k, d, end);
      tok := start;
    }
  }
}
