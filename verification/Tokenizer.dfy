/** mystrtok of src/util/stringop.c, the argument vector of src/util/argv.c, and
    the splitting of strings into tokens. */
module Tokenizer {
  import opened Options
  import opened Seqs

  const NUL := '\0'

  // ---------------------------------------------------------------------
  // The tokens of a string

  /** strspn: from position i, the first position that holds no delimiter. */
  function SpanFrom(s: string, sep: string, i: nat): (p: nat)
    requires i <= |s|
    ensures i <= p <= |s| && (forall j :: i <= j < p ==> s[j] in sep) && (p < |s| ==> s[p] !in sep)
    decreases |s| - i
  {
    if i == |s| || s[i] !in sep then i else SpanFrom(s, sep, i + 1)
  }

  /** strcspn: from position i, the first delimiter, or the end. */
  function RunFrom(s: string, sep: string, i: nat): (q: nat)
    requires i <= |s|
    ensures i <= q <= |s| && (forall j :: i <= j < q ==> s[j] !in sep) && (q < |s| ==> s[q] in sep)
    ensures i < |s| && s[i] !in sep ==> i < q
    decreases |s| - i
  {
    if i == |s| || s[i] in sep then i else RunFrom(s, sep, i + 1)
  }

  /** Where the tokens from position i on begin and end. */
  function Spans(s: string, sep: string, i: nat): seq<(nat, nat)>
    requires i <= |s|
    decreases |s| - i
  {
    var p := SpanFrom(s, sep, i);
    if p == |s| then [] else
    var q := RunFrom(s, sep, p);
    [(p, q)] + Spans(s, sep, q)
  }

  function Tokens(s: string, sep: string, i: nat): seq<string>
    requires i <= |s|
    decreases |s| - i
  {
    var p := SpanFrom(s, sep, i);
    if p == |s| then [] else
    var q := RunFrom(s, sep, p);
    [s[p..q]] + Tokens(s, sep, q)
  }

  /** A maximal run of non-delimiters. */
  ghost predicate MaximalRun(s: string, sep: string, p: nat, q: nat) {
    && p < q <= |s|
    && (forall j :: p <= j < q ==> s[j] !in sep)
    && (p > 0 ==> s[p - 1] in sep)
    && (q < |s| ==> s[q] in sep)
  }

  /** The tokens are the texts of the spans. */
  lemma {:induction false} TokensAreSpans(s: string, sep: string, i: nat)
    requires i <= |s|
    ensures |Tokens(s, sep, i)| == |Spans(s, sep, i)|
    ensures forall k :: 0 <= k < |Spans(s, sep, i)| ==>
      var (p, q) := Spans(s, sep, i)[k]; p < q <= |s| && Tokens(s, sep, i)[k] == s[p..q]
    decreases |s| - i
  {
    var p := SpanFrom(s, sep, i);
    if p < |s| { TokensAreSpans(s, sep, RunFrom(s, sep, p)); }
  }

  /** The spans are exactly the maximal delimiter-free runs: all of them, nothing
      else, and in order. */
  lemma SpansExact(s: string, sep: string, i: nat)
    requires i <= |s| && RunStart(s, sep, i)
    ensures forall p: nat, q: nat :: (p, q) in Spans(s, sep, i) <==> MaximalRun(s, sep, p, q) && i <= p
    ensures forall j, k :: 0 <= j < k < |Spans(s, sep, i)| ==> Spans(s, sep, i)[j].1 < Spans(s, sep, i)[k].0
  {
    forall p: nat, q: nat ensures (p, q) in Spans(s, sep, i) <==> MaximalRun(s, sep, p, q) && i <= p {
      SpanExact(s, sep, i, p, q);
    }
    SpansOrdered(s, sep, i);
  }

  /** Position i is not inside a run. */
  predicate RunStart(s: string, sep: string, i: nat)
    requires i <= |s|
  {
    i == 0 || i == |s| || s[i] in sep || s[i - 1] in sep
  }

  lemma {:induction false} SpanExact(s: string, sep: string, i: nat, p: nat, q: nat)
    requires i <= |s| && RunStart(s, sep, i)
    ensures (p, q) in Spans(s, sep, i) <==> MaximalRun(s, sep, p, q) && i <= p
    decreases |s| - i
  {
    var a := SpanFrom(s, sep, i);
    if a < |s| {
      var b := RunFrom(s, sep, a);
      SpanExact(s, sep, b, p, q);
      assert Spans(s, sep, i) == [(a, b)] + Spans(s, sep, b);
      assert MaximalRun(s, sep, a, b) by { FirstIsMaximal(s, sep, i); }
      if MaximalRun(s, sep, p, q) && i <= p < b { OnlyFirst(s, sep, i, p, q); }
    } else if i <= p < |s| {
      assert s[p] in sep;
    }
  }

  lemma FirstIsMaximal(s: string, sep: string, i: nat)
    requires i <= |s| && RunStart(s, sep, i) && SpanFrom(s, sep, i) < |s|
    ensures var a := SpanFrom(s, sep, i); MaximalRun(s, sep, a, RunFrom(s, sep, a))
  {
    var a := SpanFrom(s, sep, i);
    assert a > i ==> s[a - 1] in sep;
  }

  /** No other run begins in front of the end of the first one. */
  lemma OnlyFirst(s: string, sep: string, i: nat, p: nat, q: nat)
    requires i <= |s| && RunStart(s, sep, i) && SpanFrom(s, sep, i) < |s|
    requires MaximalRun(s, sep, p, q) && i <= p < RunFrom(s, sep, SpanFrom(s, sep, i))
    ensures p == SpanFrom(s, sep, i) && q == RunFrom(s, sep, SpanFrom(s, sep, i))
  {
    var a := SpanFrom(s, sep, i);
    var b := RunFrom(s, sep, a);
    assert s[p] !in sep;
    assert p > 0 ==> s[p - 1] in sep;
    assert q < |s| ==> s[q] in sep;
    assert b < |s| ==> s[b] in sep;
  }

  lemma {:induction false} SpansOrdered(s: string, sep: string, i: nat)
    requires i <= |s|
    ensures forall k :: 0 <= k < |Spans(s, sep, i)| ==> i <= Spans(s, sep, i)[k].0
    ensures forall j, k :: 0 <= j < k < |Spans(s, sep, i)| ==> Spans(s, sep, i)[j].1 < Spans(s, sep, i)[k].0
    decreases |s| - i
  {
    var a := SpanFrom(s, sep, i);
    if a < |s| {
      var b := RunFrom(s, sep, a);
      SpansOrdered(s, sep, b);
      var rest := Spans(s, sep, b);
      assert Spans(s, sep, i) == [(a, b)] + rest;
      LaterSpans(s, sep, b);
    }
  }

  /** All spans behind a delimiter begin behind it. */
  lemma LaterSpans(s: string, sep: string, b: nat)
    requires b <= |s| && (b < |s| ==> s[b] in sep)
    requires forall j, k :: 0 <= j < k < |Spans(s, sep, b)| ==> Spans(s, sep, b)[j].1 < Spans(s, sep, b)[k].0
    ensures forall k :: 0 <= k < |Spans(s, sep, b)| ==> b < Spans(s, sep, b)[k].0
  {
    var rest := Spans(s, sep, b);
    if rest != [] {
      var p := SpanFrom(s, sep, b);
      assert rest[0] == (p, RunFrom(s, sep, p)) && b < p;
      forall k | 0 < k < |rest| ensures b < rest[k].0 { assert rest[0].1 < rest[k].0; }
    }
  }

  /** Leading delimiters do not matter. */
  lemma SkipDelimiter(s: string, sep: string, i: nat)
    requires i < |s| && s[i] in sep
    ensures Tokens(s, sep, i) == Tokens(s, sep, i + 1)
  {}

  function Join(ts: seq<string>, d: char): string {
    if ts == [] then "" else if |ts| == 1 then ts[0] else ts[0] + [d] + Join(ts[1..], d)
  }

  predicate Clean(t: string, sep: string) { t != [] && forall j :: 0 <= j < |t| ==> t[j] !in sep }

  predicate AllClean(ts: seq<string>, sep: string) {
    ts == [] || (Clean(ts[0], sep) && AllClean(ts[1..], sep))
  }

  lemma {:induction false} CleanOneByOne(ts: seq<string>, sep: string)
    requires forall k :: 0 <= k < |ts| ==> Clean(ts[k], sep)
    ensures AllClean(ts, sep)
  {
    if ts != [] { CleanOneByOne(ts[1..], sep); }
  }

  /** Splitting a joined list of tokens gives the list back. */
  lemma SplitJoin(ts: seq<string>, d: char, sep: string, s: string)
    requires d in sep && forall k :: 0 <= k < |ts| ==> Clean(ts[k], sep)
    requires s == Join(ts, d)
    ensures Tokens(s, sep, 0) == ts
  {
    CleanOneByOne(ts, sep);
    assert s[0..] == s;
    SplitJoinFrom(ts, d, sep, s, 0);
  }

  predicate SplitsInto(s: string, sep: string, i: nat, ts: seq<string>) {
    i <= |s| && Tokens(s, sep, i) == ts
  }

  lemma {:induction false} SplitJoinFrom(ts: seq<string>, d: char, sep: string, s: string, i: nat)
    requires d in sep && AllClean(ts, sep)
    requires i <= |s| && s[i..] == Join(ts, d)
    ensures SplitsInto(s, sep, i, ts)
    decreases |ts|
  {
    if ts == [] {
      assert |s[i..]| == 0;
      NoTokens(s, sep);
    } else {
      var q := i + |ts[0]|;
      JoinParts(ts, d, s, i, q);
      if |ts| > 1 {
        SplitJoinFrom(ts[1..], d, sep, s, q + 1);
        assert SplitsInto(s, sep, q + 1, ts[1..]);
      }
      FirstToken(ts, d, sep, s, i, q);
    }
  }

  lemma NoTokens(s: string, sep: string)
    ensures Tokens(s, sep, |s|) == []
  {}

  lemma FirstToken(ts: seq<string>, d: char, sep: string, s: string, i: nat, q: nat)
    requires ts != [] && d in sep && Clean(ts[0], sep)
    requires i <= |s| && s[i..] == Join(ts, d) && q == i + |ts[0]|
    requires |ts| > 1 ==> SplitsInto(s, sep, q + 1, ts[1..])
    ensures SplitsInto(s, sep, i, ts)
  {
    var t := ts[0];
    JoinParts(ts, d, s, i, q);
    assert RunFrom(s, sep, i) == q && SpanFrom(s, sep, i) == i by {
      forall j | i <= j < q ensures s[j] !in sep { assert s[j] == s[i..q][j - i] == t[j - i]; }
      FirstRun(s, sep, i, q);
    }
    if |ts| == 1 { NoTokens(s, sep); } else { SkipDelimiter(s, sep, q); }
    assert ts == [s[i..q]] + ts[1..];
  }

  lemma FirstRun(s: string, sep: string, i: nat, q: nat)
    requires i < q <= |s| && (forall j :: i <= j < q ==> s[j] !in sep) && (q < |s| ==> s[q] in sep)
    ensures SpanFrom(s, sep, i) == i && RunFrom(s, sep, i) == q
  {
    var r := RunFrom(s, sep, i);
    assert r < |s| ==> s[r] in sep;
  }

  /** The first token of a joined list, the delimiter, and the rest. */
  lemma JoinParts(ts: seq<string>, d: char, s: string, i: nat, q: nat)
    requires ts != [] && i <= |s| && s[i..] == Join(ts, d) && q == i + |ts[0]|
    ensures q <= |s| && s[i..q] == ts[0] && (|ts| == 1 ==> q == |s|)
    ensures |ts| > 1 ==> q < |s| && s[q] == d && s[q + 1..] == Join(ts[1..], d)
  {
    var u := s[i..];
    assert u[..|ts[0]|] == ts[0] && s[i..q] == u[..|ts[0]|];
    if |ts| > 1 {
      assert u[|ts[0]|..] == [d] + Join(ts[1..], d) && s[q..] == u[|ts[0]|..];
      assert s[q + 1..] == s[q..][1..];
    }
  }

  // ---------------------------------------------------------------------
  // The in-place tokenizer

  /** The C string at position i ends at e. */
  ghost predicate EndsAt(b: seq<char>, i: nat, e: nat) {
    i <= e < |b| && b[e] == NUL && forall j :: i <= j < e ==> b[j] != NUL
  }

  /** mystrtok: from `src`, the start of the next token, or None; the delimiter
      behind it becomes a NUL, and nothing else in the buffer changes. */
  method Mystrtok(buf: array<char>, src: nat, sep: string, ghost e: nat) returns (token: Option<nat>, next: nat)
    requires EndsAt(buf[..], src, e) && NUL !in sep
    modifies buf
    ensures var s := old(buf[..e]); var p := SpanFrom(s, sep, src);
      && (token == if p == e then None else Some(p))
      && var q := RunFrom(s, sep, p);
      && (p < e ==> EndsAt(buf[..], p, q))
      && next == (if q < e then q + 1 else e)
      && buf[..] == (if q < e then old(buf[..])[q := NUL] else old(buf[..]))
  {
    ghost var s := buf[..e];
    var start := src;
    while buf[start] in sep
      invariant src <= start <= e && SpanFrom(s, sep, src) == SpanFrom(s, sep, start)
      decreases e - start
    {
      assert buf[start] != NUL;
      start := start + 1;
    }
    if buf[start] == NUL {
      return None, start;
    }
    var end := start;
    while buf[end] != NUL && buf[end] !in sep
      invariant start <= end <= e && RunFrom(s, sep, start) == RunFrom(s, sep, end)
      decreases e - end
    {
      end := end + 1;
    }
    token := Some(start);
    if buf[end] != NUL {
      buf[end] := NUL;
      end := end + 1;
    }
    next := end;
  }

  // ---------------------------------------------------------------------
  // ARGV

  class Argv {
    var len: nat
    var argc: nat
    var argv: array<Option<string>>
    ghost var items: seq<string>   // the strings held

    /** Always argc < len, with one more slot behind len. */
    ghost predicate Valid()
      reads this, argv
    {
      && argv.Length == len + 1 && len >= 2 && argc < len
      && |items| == argc && forall i :: 0 <= i < argc ==> argv[i] == Some(items[i])
    }

    ghost predicate Terminated()
      requires Valid()
      reads this, argv
    {
      argv[argc] == None
    }

    /** argv_alloc */
    constructor (n: int)
      ensures Valid() && items == [] && Terminated() && fresh(argv) && len == if n < 2 then 2 else n
    {
      len := if n < 2 then 2 else n;
      argv := new Option<string>[(if n < 2 then 2 else n) + 1](_ => None);
      argc, items := 0, [];
    }

    /** myrealloc of the vector to twice its length. */
    method Grow()
      requires argv.Length == len + 1 && argc <= len
      modifies `len, `argv
      ensures len == 2 * old(len) && argv.Length == len + 1 && fresh(argv)
      ensures argv[..argc] == old(argv[..argc])
    {
      len := len * 2;
      var v := new Option<string>[len + 1](_ => None);
      forall i | 0 <= i < argv.Length && i < v.Length { v[i] := argv[i]; }
      argv := v;
    }

    /** argv_add of one string. */
    method Add(arg: string)
      requires Valid()
      modifies this, argv
      ensures Valid() && items == old(items) + [arg]
      ensures (argv == old(argv) || fresh(argv))
      ensures len == if old(argc) + 1 >= old(len) then 2 * old(len) else old(len)
    {
      if argc + 1 >= len {
        Grow();
      }
      assert forall i :: 0 <= i < argc ==> argv[..argc][i] == Some(items[i]);
      argv[argc] := Some(arg);
      argc, items := argc + 1, items + [arg];
    }

    /** argv_terminate */
    method Terminate()
      requires Valid()
      modifies argv
      ensures Valid() && items == old(items) && Terminated()
    {
      argv[argc] := None;
    }
  }

  /** The C string at position i of a buffer. */
  method Strdup(buf: array<char>, i: nat, ghost e: nat) returns (t: string)
    requires EndsAt(buf[..], i, e)
    ensures t == buf[i..e]
  {
    t := "";
    var j := i;
    while buf[j] != NUL
      invariant i <= j <= e && t == buf[i..j]
      decreases e - j
    {
      t := t + [buf[j]];
      j := j + 1;
    }
  }

  /** From position bp on, the buffer still holds the string, and a NUL behind it. */
  ghost predicate Unread(b: array<char>, s: string, bp: nat)
    reads b
  {
    b.Length == |s| + 1 && bp <= |s| && b[|s|] == NUL && forall j :: bp <= j < |s| ==> b[j] == s[j]
  }

  /** mystrtok on a buffer of which the suffix from bp on is unread: that suffix
      stays as it was, but for the NUL behind the token. */
  method NextToken(saved: array<char>, bp: nat, sep: string, ghost s: string) returns (arg: Option<string>, next: nat)
    requires Unread(saved, s, bp) && NUL !in s && NUL !in sep
    modifies saved
    ensures var p := SpanFrom(s, sep, bp); var q := RunFrom(s, sep, p);
      && arg == (if p == |s| then None else Some(s[p..q]))
      && next == (if q < |s| then q + 1 else |s|)
    ensures bp <= next && Unread(saved, s, next)
  {
    ghost var e := |s|;
    ghost var p := SpanFrom(s, sep, bp);
    ghost var q := RunFrom(s, sep, p);
    SameSuffix(saved[..e], s, sep, bp);
    var token;
    token, next := Mystrtok(saved, bp, sep, e);
    arg := None;
    if token.Some? {
      var t := Strdup(saved, token.value, q);
      assert t == s[p..q];
      arg := Some(t);
    }
  }

  /** One round of its loop: a token is added, and the next one looked for. */
  method AddToken(argvp: Argv, saved: array<char>, t: string, bp: nat, sep: string, ghost s: string)
      returns (arg: Option<string>, next: nat)
    requires argvp.Valid() && Unread(saved, s, bp) && NUL !in s && NUL !in sep
    modifies argvp, argvp.argv, saved
    ensures argvp.Valid() && argvp.items == old(argvp.items) + [t]
    ensures argvp.argv == old(argvp.argv) || fresh(argvp.argv)
    ensures var p := SpanFrom(s, sep, bp); var q := RunFrom(s, sep, p);
      && arg == (if p == |s| then None else Some(s[p..q]))
      && next == (if q < |s| then q + 1 else |s|)
    ensures bp <= next && Unread(saved, s, next)
  {
    argvp.Add(t);
    arg, next := NextToken(saved, bp, sep, s);
  }

  /** argv_split_append: the tokens of the string go behind what is there. `ok` is
      false when myfree then panics, which it does exactly for an empty string. */
  method SplitAppend(argvp: Argv, s: string, sep: string) returns (ok: bool)
    requires argvp.Valid() && NUL !in s && NUL !in sep
    modifies argvp, argvp.argv
    ensures argvp.Valid() && argvp.Terminated()
    ensures argvp.items == old(argvp.items) + Tokens(s, sep, 0)
    ensures argvp.argv == old(argvp.argv) || fresh(argvp.argv)
    ensures ok <==> s != ""
  {
    var saved, heap := Duplicate(s);
    ghost var goal := argvp.items + Tokens(s, sep, 0);
    NextTokens(s, sep, 0);
    var arg, bp := NextToken(saved, 0, sep, s);
    while arg.Some?
      invariant fresh(saved) && Unread(saved, s, bp) && argvp.Valid()
      invariant argvp.items + Left(arg, s, sep, bp) == goal
      invariant argvp.argv == old(argvp.argv) || fresh(argvp.argv)
      decreases arg.Some?, |s| - bp
    {
      LeftNext(argvp.items, arg.value, s, sep, bp);
      arg, bp := AddToken(argvp, saved, arg.value, bp, sep, s);
    }
    assert argvp.items == goal;
    argvp.Terminate();
    ok := Release(saved, heap);
  }

  /** The token in hand and those still unread. */
  function Left(arg: Option<string>, s: string, sep: string, bp: nat): seq<string>
    requires bp <= |s|
  {
    if arg.Some? then [arg.value] + Tokens(s, sep, bp) else []
  }

  /** One token moves from those left to those held. */
  lemma LeftNext(items: seq<string>, t: string, s: string, sep: string, bp: nat)
    requires bp <= |s|
    ensures var p := SpanFrom(s, sep, bp); var q := RunFrom(s, sep, p);
      var arg, next := if p == |s| then None else Some(s[p..q]), if q < |s| then q + 1 else |s|;
      items + Left(Some(t), s, sep, bp) == (items + [t]) + Left(arg, s, sep, next)
  {
    var rest := Tokens(s, sep, bp);
    NextTokens(s, sep, bp);
    Regroup(items, [t], rest);
    assert Left(Some(t), s, sep, bp) == [t] + rest;
  }

  /** mystrdup: a copy on the heap, but for an empty string a constant that all
      callers share. */
  method Duplicate(s: string) returns (saved: array<char>, heap: bool)
    ensures fresh(saved) && Unread(saved, s, 0) && (heap <==> s != "")
  {
    heap := s != "";
    saved := new char[|s| + 1](i requires 0 <= i <= |s| => if i < |s| then s[i] else NUL);
  }

  /** Tokens, unrolled once, with the delimiter behind the token skipped. */
  lemma NextTokens(s: string, sep: string, i: nat)
    requires i <= |s|
    ensures var p := SpanFrom(s, sep, i); var q := RunFrom(s, sep, p);
      Tokens(s, sep, i) == if p == |s| then []
                           else [s[p..q]] + Tokens(s, sep, if q < |s| then q + 1 else |s|)
  {
    var p := SpanFrom(s, sep, i);
    var q := RunFrom(s, sep, p);
    if q < |s| { SkipDelimiter(s, sep, q); }
  }

  /** Scanning from i on looks at nothing in front of i. */
  lemma {:induction false} SameSuffix(a: string, b: string, sep: string, i: nat)
    requires |a| == |b| && i <= |a| && forall j :: i <= j < |a| ==> a[j] == b[j]
    ensures SpanFrom(a, sep, i) == SpanFrom(b, sep, i)
    ensures RunFrom(a, sep, SpanFrom(a, sep, i)) == RunFrom(b, sep, SpanFrom(b, sep, i))
  {
    var p, p' := SpanFrom(a, sep, i), SpanFrom(b, sep, i);
    assert p < |a| ==> b[p] !in sep;
    assert p' < |b| ==> a[p'] !in sep;
    var q, q' := RunFrom(a, sep, p), RunFrom(b, sep, p);
    assert q < |a| ==> b[q] in sep;
    assert q' < |b| ==> a[q'] in sep;
  }

  /** myfree: the panic on a block without the allocator's signature. */
  method Release(saved: array<char>, heap: bool) returns (ok: bool)
    ensures ok == heap
  {
    ok := heap;
  }

  /** argv_split: a new vector holding exactly the tokens, unless the string is
      empty: then freeing its copy panics. */
  method Split(s: string, sep: string) returns (ok: bool, argvp: Argv)
    requires NUL !in s && NUL !in sep
    ensures fresh(argvp) && argvp.Valid() && argvp.Terminated() && argvp.items == Tokens(s, sep, 0)
    ensures ok <==> s != ""
  {
    argvp := new Argv(1);
    ok := SplitAppend(argvp, s, sep);
  }

  /** The input for which it fails, although it has no tokens to split off. */
  method SplitEmpty(sep: string) returns (ok: bool)
    requires NUL !in sep
    ensures !ok && Tokens("", sep, 0) == []
  {
    var argvp;
    ok, argvp := Split("", sep);
  }
}
