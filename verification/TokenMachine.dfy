/** Automata over the words of a line: one word per state, in order. */
module TokenMachine {
  import opened Basics
  import opened Text

  // ------------------------------------------------------------------ words

  /** The words between single spaces. Nothing comes after a space at the very end. */
  function Tokens(s: string): seq<string>
    decreases |s|
  {
    if s == "" then [] else [s[..Find(' ', s)]] + Tokens(After(s))
  }

  /** What is left behind the first word and its space. */
  function After(s: string): string {
    var i := Find(' ', s);
    if i < |s| then s[i + 1..] else ""
  }

  lemma TokensFirst(x: string, y: string)
    requires ' ' !in x
    ensures Tokens(x + " " + y) == [x] + Tokens(y)
  {
    var s := x + " " + y;
    assert s[..|x|] == x && s[|x| + 1..] == y;
    FindUnique(' ', s, |x|);
  }

  lemma TokensNext(rest: string, tokens: seq<string>, n: nat)
    requires n <= |tokens| && Tokens(rest) == tokens[n..]
    ensures rest == "" ==> n == |tokens|
    ensures rest != "" ==>
              n < |tokens| && tokens[n] == rest[..Find(' ', rest)] && Tokens(After(rest)) == tokens[n + 1..]
  {
    if rest != "" {
      assert tokens[n..][0] == tokens[n] && tokens[n..][1..] == tokens[n + 1..];
    }
  }

  /** The two facts about `Tokens` that whole lines need. */
  ghost predicate Reads(f: string -> seq<string>) {
    && f("") == []
    && forall x, y | ' ' !in x :: f(x + " " + y) == [x] + f(y)
  }

  lemma TokensRead()
    ensures Reads(Tokens)
  {
    forall x, y | ' ' !in x ensures Tokens(x + " " + y) == [x] + Tokens(y) {
      TokensFirst(x, y);
    }
  }

  lemma ReadLast(f: string -> seq<string>, x: string)
    requires Reads(f) && ' ' !in x
    ensures f(x + " ") == [x]
  {
    assert x + " " == x + " " + "";
  }

  lemma Cut(x: string, i: nat, y: string)
    requires i < |x| && x[i] == ' '
    ensures x + " " + y == x[..i] + " " + (x[i + 1..] + " " + y)
    ensures x + " " == x[..i] + " " + (x[i + 1..] + " ")
  {
  }

  lemma {:induction false} ReadApart(f: string -> seq<string>, x: string, y: string)
    requires Reads(f)
    ensures f(x + " " + y) == f(x + " ") + f(y)
    decreases |x|
  {
    var i := Find(' ', x);
    if i == |x| {
      assert x[..i] == x;
      ReadLast(f, x);
    } else {
      Cut(x, i, y);
      ReadApart(f, x[i + 1..], y);
    }
  }

  /** A space separates for good: what comes before it and what comes after it are read apart. */
  lemma TokensApart(x: string, y: string)
    ensures Tokens(x + " " + y) == Tokens(x + " ") + Tokens(y)
  {
    TokensRead();
    ReadApart(Tokens, x, y);
  }

  /** A line of words, each with a space behind it, and more text. */
  function Line(words: seq<string>, more: string): string {
    if words == [] then more else words[0] + " " + Line(words[1..], more)
  }

  lemma {:induction false} ReadLine(f: string -> seq<string>, words: seq<string>, more: string)
    requires Reads(f) && forall i :: 0 <= i < |words| ==> ' ' !in words[i]
    ensures f(Line(words, more)) == words + f(more)
  {
    if words != [] {
      ReadLine(f, words[1..], more);
      assert words == [words[0]] + words[1..];
    }
  }

  lemma TokensLine(words: seq<string>, more: string)
    requires forall i :: 0 <= i < |words| ==> ' ' !in words[i]
    ensures Tokens(Line(words, more)) == words + Tokens(more)
  {
    TokensRead();
    ReadLine(Tokens, words, more);
  }

  // ------------------------------------------------------------------ the machine

  datatype Result = Ok | InvalidType | LackOfElement

  /** `accepts` tells whether the machine goes on after a word, `store` what the word sets. */
  datatype Machine<!C(!new)> = Machine(accepts: (nat, string) -> bool, store: (nat, string, C) -> C)
  {
    predicate AllAccepted(tokens: seq<string>) {
      forall k :: 0 <= k < |tokens| ==> accepts(k, tokens[k])
    }

    function Stored(tokens: seq<string>, c: C): C {
      if tokens == [] then c
      else store(|tokens| - 1, tokens[|tokens| - 1], Stored(tokens[..|tokens| - 1], c))
    }

    function ResultOf(tokens: seq<string>): Result {
      if |tokens| < 8 || !AllAccepted(tokens[..7]) then LackOfElement
      else if !accepts(7, tokens[7]) then InvalidType
      else Ok
    }

    ghost predicate NinthIgnored() {
      && (forall token :: accepts(8, token))
      && (forall token, c :: store(8, token, c) == c)
    }

    /** Where the machine stands after `n` words. */
    ghost predicate Reached(tokens: seq<string>, n: nat, failed: bool, c: C, initial: C) {
      && n <= |tokens|
      && if failed then 0 < n && AllAccepted(tokens[..n - 1]) && !accepts(n - 1, tokens[n - 1])
         else AllAccepted(tokens[..n]) && c == Stored(tokens[..n], initial)
    }

    lemma Next(tokens: seq<string>, n: nat, c: C, initial: C)
      requires n < |tokens| && Reached(tokens, n, false, c, initial)
      ensures !accepts(n, tokens[n]) ==> Reached(tokens, n + 1, true, c, initial)
      ensures accepts(n, tokens[n]) ==> Reached(tokens, n + 1, false, store(n, tokens[n], c), initial)
    {
      assert tokens[..n + 1][..n] == tokens[..n];
      assert tokens[..n + 1] == tokens[..n] + [tokens[n]];
    }

    /** The body of the loop: one word. */
    method Step(rest: string, n: nat, c: C, ghost tokens: seq<string>, ghost initial: C)
      returns (rest': string, failed: bool, c': C)
      requires rest != "" && n <= |tokens| && Tokens(rest) == tokens[n..] && Reached(tokens, n, false, c, initial)
      ensures n < |tokens| && Tokens(rest') == tokens[n + 1..] && Reached(tokens, n + 1, failed, c', initial)
    {
      TokensNext(rest, tokens, n);
      Next(tokens, n, c, initial);
      var token := rest[..Find(' ', rest)];
      failed, c' := !accepts(n, token), c;
      if !failed {
        c' := store(n, token, c);
      }
      rest' := After(rest);
    }

    /** Reads a line over `initial`, what the structure held before. At most nine words are looked at,
        and the ninth changes nothing. */
    method Run(text: string, initial: C) returns (result: Result, c: C, examined: nat)
      requires NinthIgnored()
      ensures result == ResultOf(Tokens(text))
      ensures examined <= 9 && examined <= |Tokens(text)|
      ensures result == Ok ==> c == Stored(Tokens(text)[..8], initial)
    {
      var rest, failed, complete := text, false, false;
      c, examined := initial, 0;
      ghost var tokens := Tokens(text);
      while !failed && rest != "" && examined <= 8
        invariant examined <= 9 && Reached(tokens, examined, failed, c, initial)
        invariant Tokens(rest) == tokens[examined..]
        invariant complete <==> examined >= 8
        decreases !failed, 9 - examined
      {
        rest, failed, c := Step(rest, examined, c, tokens, initial);
        complete := complete || examined == 7;
        examined := examined + 1;
      }
      TokensNext(rest, tokens, examined);
      Finish(tokens, examined, failed, c, initial);
      result := if !complete then LackOfElement else if failed then InvalidType else Ok;
    }

    lemma Finish(tokens: seq<string>, n: nat, failed: bool, c: C, initial: C)
      requires Reached(tokens, n, failed, c, initial) && n <= 9
      requires failed || n == |tokens| || n == 9
      requires NinthIgnored()
      ensures ResultOf(tokens) == if n < 8 then LackOfElement else if failed then InvalidType else Ok
      ensures ResultOf(tokens) == Ok ==> c == Stored(tokens[..8], initial)
    {
      if n == 9 {
        assert accepts(8, tokens[8]);
        assert tokens[..9][..8] == tokens[..8];
      }
      if failed && n <= 7 && |tokens| >= 8 {
        assert tokens[..7][n - 1] == tokens[n - 1];
      } else if n >= 8 {
        assert forall k :: 0 <= k < 7 ==> tokens[..7][k] == tokens[k];
        assert forall k :: 0 <= k < 7 ==> accepts(k, tokens[..7][k]);
      }
    }
  }
}
