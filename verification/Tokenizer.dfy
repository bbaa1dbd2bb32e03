/** Splitting a request at spaces: `strtok` over a NUL-terminated buffer that it cuts in place. */
module Tokenizer {

  /** The C string at `off`: the characters up to the terminating NUL. */
  function CString(b: seq<char>, off: nat): (s: string)
    ensures '\0' !in s && off + |s| <= (if off <= |b| then |b| else off)
    decreases |b| - off
  {
    if off >= |b| || b[off] == '\0' then [] else [b[off]] + CString(b, off + 1)
  }

  ghost predicate Terminated(b: seq<char>, off: nat) {
    exists j :: off <= j < |b| && b[j] == '\0'
  }

  lemma {:induction false} CStringFrame(b: seq<char>, c: seq<char>, off: nat)
    requires |b| == |c| && Terminated(b, off)
    requires forall j :: off <= j <= off + |CString(b, off)| && j < |b| ==> c[j] == b[j]
    ensures CString(c, off) == CString(b, off)
    decreases |b| - off
  {
    if b[off] != '\0' {
      CStringFrame(b, c, off + 1);
    }
  }

  // ----- the meaning of a request

  function WordLength(s: string): (n: nat)
    ensures n <= |s| && (forall j :: 0 <= j < n ==> s[j] != ' ') && (n < |s| ==> s[n] == ' ')
  {
    if s == [] || s[0] == ' ' then 0 else 1 + WordLength(s[1..])
  }

  /** The maximal runs of characters other than space. */
  function Tokens(s: string): seq<string>
    decreases |s|
  {
    if s == [] then []
    else if s[0] == ' ' then Tokens(s[1..])
    else [s[..WordLength(s)]] + Tokens(s[WordLength(s)..])
  }

  predicate IsWord(w: string) {
    w != [] && ' ' !in w
  }

  function Join(words: seq<string>): string {
    if words == [] then [] else if |words| == 1 then words[0] else words[0] + " " + Join(words[1..])
  }

  lemma {:induction false} WordLengthAppend(w: string, rest: string)
    requires ' ' !in w && (rest == [] || rest[0] == ' ')
    ensures WordLength(w + rest) == |w|
  {
    if w == [] {
      assert w + rest == rest;
    } else {
      assert (w + rest)[1..] == w[1..] + rest;
      WordLengthAppend(w[1..], rest);
    }
  }

  lemma TokensOfWord(w: string, rest: string)
    requires IsWord(w) && (rest == [] || rest[0] == ' ')
    ensures Tokens(w + rest) == [w] + Tokens(rest)
  {
    WordLengthAppend(w, rest);
    assert (w + rest)[0] == w[0];
    assert (w + rest)[..|w|] == w && (w + rest)[|w|..] == rest;
  }

  /** Splitting undoes joining. */
  lemma {:induction false} TokensOfJoin(words: seq<string>)
    requires forall w :: w in words ==> IsWord(w)
    ensures Tokens(Join(words)) == words
  {
    if |words| == 1 {
      TokensOfWord(words[0], []);
      assert words[0] + [] == words[0];
    } else if |words| > 1 {
      var rest := " " + Join(words[1..]);
      assert Join(words) == words[0] + rest;
      TokensOfWord(words[0], rest);
      assert rest[1..] == Join(words[1..]);
      TokensOfJoin(words[1..]);
    }
  }

  /** Every token is a word, made of characters of the request. */
  lemma {:induction false} TokensAreWords(s: string)
    ensures forall w :: w in Tokens(s) ==> IsWord(w) && |w| <= |s| && forall c :: c in w ==> c in s
    decreases |s|
  {
    if s == [] {
    } else if s[0] == ' ' {
      TokensAreWords(s[1..]);
    } else {
      var n := WordLength(s);
      TokensAreWords(s[n..]);
      assert forall c :: c in s[n..] ==> c in s;
      assert s[..n][0] == s[0];
    }
  }

  /** A token and the space before the next one take two characters, so there are at most (n + 1) / 2. */
  lemma {:induction false} TokenCount(s: string)
    ensures 2 * |Tokens(s)| <= |s| + 1
    ensures s != [] && s[0] == ' ' ==> 2 * |Tokens(s)| <= |s|
    decreases |s|
  {
    if s == [] {
    } else if s[0] == ' ' {
      TokenCount(s[1..]);
    } else {
      TokenCount(s[WordLength(s)..]);
    }
  }

  /** Words with gaps before, between and behind them. */
  function Spread(gaps: seq<string>, words: seq<string>): string
    requires |gaps| == |words| + 1
  {
    if words == [] then gaps[0] else gaps[0] + words[0] + Spread(gaps[1..], words[1..])
  }

  /** The gaps are spaces, and between two words there is one at least. */
  predicate AreGaps(gaps: seq<string>) {
    && (forall i :: 0 <= i < |gaps| ==> forall c :: c in gaps[i] ==> c == ' ')
    && (forall i :: 0 < i < |gaps| - 1 ==> gaps[i] != [])
  }

  lemma {:induction false} TokensOfGap(gap: string, rest: string)
    requires forall c :: c in gap ==> c == ' '
    ensures Tokens(gap + rest) == Tokens(rest)
    decreases |gap|
  {
    if gap == [] {
      assert gap + rest == rest;
    } else {
      assert forall c :: c in gap[1..] ==> c in gap;
      assert gap[0] in gap && (gap + rest)[0] == ' ' && (gap + rest)[1..] == gap[1..] + rest;
      TokensOfGap(gap[1..], rest);
    }
  }

  /** Splitting any text at its spaces, however many, gives exactly the words in it, in order. */
  lemma {:induction false} TokensOfSpread(gaps: seq<string>, words: seq<string>)
    requires |gaps| == |words| + 1 && AreGaps(gaps)
    requires forall i :: 0 <= i < |words| ==> IsWord(words[i])
    ensures Tokens(Spread(gaps, words)) == words
    decreases |words|
  {
    if words == [] {
      TokensOfGap(gaps[0], []);
      assert gaps[0] + [] == gaps[0];
    } else {
      var rest := Spread(gaps[1..], words[1..]);
      SpreadStarts(gaps[1..], words[1..]);
      TokensOfSpread(gaps[1..], words[1..]);
      assert Spread(gaps, words) == gaps[0] + (words[0] + rest);
      TokensOfGap(gaps[0], words[0] + rest);
      assert words != [] && gaps[1] == gaps[1..][0];
      TokensOfWord(words[0], rest);
    }
  }

  lemma SpreadStarts(gaps: seq<string>, words: seq<string>)
    requires |gaps| == |words| + 1 && (words == [] || gaps[0] != [])
    requires forall c :: c in gaps[0] ==> c == ' '
    ensures Spread(gaps, words) == [] || Spread(gaps, words)[0] == ' '
  {
    if gaps[0] != [] {
      assert gaps[0][0] in gaps[0];
      assert Spread(gaps, words)[0] == gaps[0][0];
    }
  }

  /** And every text is of that form. */
  lemma {:induction false} EveryTextIsSpread(s: string) returns (gaps: seq<string>, words: seq<string>)
    ensures |gaps| == |words| + 1 && AreGaps(gaps) && s == Spread(gaps, words)
    ensures forall i :: 0 <= i < |words| ==> IsWord(words[i])
    ensures s != [] && s[0] != ' ' ==> gaps[0] == []
    ensures s != [] && s[0] == ' ' ==> gaps[0] != []
    decreases |s|
  {
    if s == [] {
      gaps, words := [[]], [];
    } else if s[0] == ' ' {
      gaps, words := EveryTextIsSpread(s[1..]);
      assert s == [s[0]] + s[1..];
      assert ([[' '] + gaps[0]] + gaps[1..])[1..] == gaps[1..];
      gaps := [[' '] + gaps[0]] + gaps[1..];
    } else {
      var n := WordLength(s);
      var more, others := EveryTextIsSpread(s[n..]);
      gaps, words := [[]] + more, [s[..n]] + others;
      assert gaps[1..] == more && words[1..] == others;
      assert s == [] + s[..n] + s[n..];
      assert s[..n][0] == s[0];
      assert n < |s| ==> s[n..][0] == ' ';
    }
  }

  // ----- strtok

  /** At a character that is neither space nor NUL a token starts; it ends before the first space or NUL. */
  lemma TokenAt(b: seq<char>, i: nat, e: nat)
    requires i < e < |b| && (b[e] == ' ' || b[e] == '\0')
    requires forall j :: i <= j < e ==> b[j] != ' ' && b[j] != '\0'
    ensures CString(b, i) == b[i..e] + CString(b, e)
    ensures Tokens(CString(b, i)) == [b[i..e]] + Tokens(CString(b, e))
  {
    CStringSplit(b, i, e);
    TokensOfWord(b[i..e], CString(b, e));
  }

  lemma {:induction false} CStringSplit(b: seq<char>, i: nat, e: nat)
    requires i <= e <= |b|
    requires forall j :: i <= j < e ==> b[j] != '\0'
    ensures CString(b, i) == b[i..e] + CString(b, e)
    decreases e - i
  {
    if i < e {
      CStringSplit(b, i + 1, e);
      assert b[i..e] == [b[i]] + b[i + 1..e];
    }
  }

  /** `strtok(.., " ")` resumed at `from`: the start of the next token, or None; `next` is where to resume. */
  method Strtok(buf: array<char>, from: nat) returns (found: bool, token: nat, next: nat)
    requires Terminated(buf[..], from)
    modifies buf
    ensures found <==> Tokens(CString(old(buf[..]), from)) != []
    ensures forall j :: 0 <= j <= from && j < buf.Length ==> buf[j] == old(buf[j])
    ensures found ==> Terminated(buf[..], next) && from <= token && token + |CString(buf[..], token)| <= next
    ensures found ==> Terminated(buf[..], token)
    ensures from <= next
    ensures found ==> Tokens(CString(old(buf[..]), from)) == [CString(buf[..], token)] + Tokens(CString(buf[..], next))
  {
    ghost var b := buf[..];
    var i := from;
    while buf[i] == ' '
      invariant from <= i < buf.Length && buf[..] == b && Terminated(b, i)
      invariant Tokens(CString(b, i)) == Tokens(CString(b, from))
      decreases buf.Length - i
    {
      assert CString(b, i)[1..] == CString(b, i + 1);
      i := i + 1;
    }
    if buf[i] == '\0' {
      return false, i, i;
    }
    var e := i;
    while buf[e] != ' ' && buf[e] != '\0'
      invariant i <= e < buf.Length && buf[..] == b && Terminated(b, e)
      invariant forall j :: i <= j < e ==> b[j] != ' ' && b[j] != '\0'
      decreases buf.Length - e
    {
      e := e + 1;
    }
    found, token, next := true, i, e;
    CutToken(b, i, e);
    if buf[e] == ' ' {
      buf[e] := '\0';
      assert buf[..] == b[e := '\0'];
      next := e + 1;
    } else {
      assert b[e := '\0'] == b;
    }
  }

  lemma CutToken(b: seq<char>, i: nat, e: nat)
    requires i < e < |b| && Terminated(b, e) && (b[e] == ' ' || b[e] == '\0')
    requires forall j :: i <= j < e ==> b[j] != ' ' && b[j] != '\0'
    ensures var c := b[e := '\0'];
            var next := if b[e] == ' ' then e + 1 else e;
            && CString(c, i) == b[i..e] && Terminated(c, i) && Terminated(c, next)
            && Tokens(CString(b, i)) == [b[i..e]] + Tokens(CString(c, next))
  {
    var c := b[e := '\0'];
    TokenAt(b, i, e);
    CStringSplit(c, i, e);
    assert c[i..e] == b[i..e];
    assert CString(c, e) == [];
    assert c[e] == '\0';
    if b[e] == ' ' {
      assert CString(b, e)[1..] == CString(b, e + 1);
      var j :| e <= j < |b| && b[j] == '\0';
      assert c[j] == '\0';
      CStringFrame(b, c, e + 1);
    }
  }

  /** `kvstore_skiplist_token`: `kvlist` receives the places of the tokens in the buffer, which is cut between them. */
  method Tokenize(buf: array<char>, kvlist: array<nat>) returns (count: nat)
    requires Terminated(buf[..], 0) && |Tokens(CString(buf[..], 0))| <= kvlist.Length
    modifies buf, kvlist
    ensures count == |Tokens(CString(old(buf[..]), 0))| <= kvlist.Length
    ensures forall k :: 0 <= k < count ==> CString(buf[..], kvlist[k]) == Tokens(CString(old(buf[..]), 0))[k]
  {
    ghost var all := Tokens(CString(buf[..], 0));
    count := 0;
    var found, token: nat, next: nat := Strtok(buf, 0);
    while found
      invariant count <= kvlist.Length && Progress(buf[..], kvlist[..count], all, found, token, next)
      decreases |all| - count
    {
      kvlist[count] := token;
      found, token, next := StrtokAgain(buf, kvlist[..count], all, token, next);
      assert kvlist[..count + 1] == kvlist[..count] + [kvlist[count]];
      count := count + 1;
    }
  }

  /** `strtok(NULL, " ")` once `token` has its place. */
  method StrtokAgain(buf: array<char>, ghost places: seq<nat>, ghost all: seq<string>, ghost token: nat, next: nat)
    returns (found: bool, token': nat, next': nat)
    requires Progress(buf[..], places, all, true, token, next)
    modifies buf
    ensures Progress(buf[..], places + [token], all, found, token', next')
  {
    ghost var b := buf[..];
    TokenStored(b, places, all, token, next);
    found, token', next' := Strtok(buf, next);
    StillPlaced(b, buf[..], places + [token], all, next, next');
  }

  /** The tokens up to here have their places; the rest starts with the one just found, if any. */
  ghost predicate Progress(b: seq<char>, places: seq<nat>, all: seq<string>, found: bool, token: nat, next: nat) {
    && AllPlaced(b, places, all, next)
    && (found ==> Terminated(b, next) && Placed(b, token, CString(b, token), next))
    && all[|places|..] == (if found then [CString(b, token)] + Tokens(CString(b, next)) else [])
  }

  lemma TokenStored(b: seq<char>, places: seq<nat>, all: seq<string>, token: nat, next: nat)
    requires Progress(b, places, all, true, token, next)
    ensures AllPlaced(b, places + [token], all, next)
    ensures all[|places| + 1..] == Tokens(CString(b, next))
  {
    var n := |places|;
    assert all[n] == all[n..][0] && all[n + 1..] == all[n..][1..];
  }

  ghost predicate AllPlaced(b: seq<char>, places: seq<nat>, words: seq<string>, next: nat) {
    |places| <= |words| && forall k :: 0 <= k < |places| ==> Placed(b, places[k], words[k], next)
  }

  /** Cutting behind the place where the search went on leaves the tokens before it alone. */
  lemma StillPlaced(b: seq<char>, c: seq<char>, places: seq<nat>, words: seq<string>, next: nat, next': nat)
    requires AllPlaced(b, places, words, next) && |b| == |c|
    requires forall j :: 0 <= j <= next && j < |b| ==> c[j] == b[j]
    requires next <= next'
    ensures AllPlaced(c, places, words, next')
  {
    forall k | 0 <= k < |places| ensures Placed(c, places[k], words[k], next') {
      var off := places[k];
      CStringFrame(b, c, off);
      CStringEnd(b, off);
    }
  }

  lemma {:induction false} CStringEnd(b: seq<char>, off: nat)
    requires Terminated(b, off)
    ensures off + |CString(b, off)| < |b| && b[off + |CString(b, off)|] == '\0'
    decreases |b| - off
  {
    if b[off] != '\0' {
      CStringEnd(b, off + 1);
    }
  }

  /** A token found earlier lies before the place where the search goes on. */
  ghost predicate Placed(b: seq<char>, off: nat, token: string, next: nat) {
    Terminated(b, off) && CString(b, off) == token && off + |token| <= next
  }
}
