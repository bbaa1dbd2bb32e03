/** What a session means: requests against a finite map, replies as 1024-byte buffers. */
module KVProtocol {
  import opened Decimal
  import opened Tokenizer

  const REPLY_SIZE: nat := 1024
  const MAX_TOKENS: nat := 128

  const COMMANDS: seq<string> := ["SKSET", "SKGET", "SKDEL", "SKMOD", "SKCOUNT"]

  // The places of the commands in the table.
  const SKSET: nat := 0
  const SKGET: nat := 1
  const SKDEL: nat := 2
  const SKMOD: nat := 3
  const SKCOUNT: nat := 4
  const UNKNOWN: nat := 5

  function Command(name: string): (cmd: nat)
    ensures cmd < |COMMANDS| ==> COMMANDS[cmd] == name
    ensures cmd == UNKNOWN <==> name !in COMMANDS
    ensures cmd <= UNKNOWN
  {
    if name == COMMANDS[0] then SKSET
    else if name == COMMANDS[1] then SKGET
    else if name == COMMANDS[2] then SKDEL
    else if name == COMMANDS[3] then SKMOD
    else if name == COMMANDS[4] then SKCOUNT
    else UNKNOWN
  }

  /** `memset` to zero, then `snprintf` with the size of the buffer. */
  function Fill(text: string): (b: seq<char>)
    ensures |b| == REPLY_SIZE
  {
    var t := if |text| < REPLY_SIZE then text else text[..REPLY_SIZE - 1];
    t + seq(REPLY_SIZE - |t|, _ => '\0')
  }

  /** The text a client reads from a reply buffer. */
  function Text(reply: seq<char>): string {
    CString(reply, 0)
  }

  datatype State = State(m: map<string, string>, wbuf: seq<char>)

  /** The number of tokens a command takes; the interpreter does not check it. */
  function Arity(cmd: nat): nat {
    if cmd == SKSET || cmd == SKMOD then 3 else if cmd == SKGET || cmd == SKDEL then 2 else 1
  }

  predicate EnoughTokens(toks: seq<string>) {
    toks != [] ==> Arity(Command(toks[0])) <= |toks|
  }

  /** A request without NUL that fits the buffers and gives every token its command needs. */
  predicate Request(r: string) {
    && '\0' !in r && |r| < REPLY_SIZE && |Tokens(r)| <= MAX_TOKENS
    && EnoughTokens(Tokens(r))
  }

  function ExecSet(s: State, key: string, value: string): State {
    if key in s.m then State(s.m, Fill("EXIST")) else State(s.m[key := value], Fill("SUCCESS"))
  }

  function ExecGet(s: State, key: string): State {
    State(s.m, Fill(if key in s.m then s.m[key] else "Not Found"))
  }

  function ExecDel(s: State, key: string): State {
    if key in s.m then State(s.m - {key}, Fill("")) else State(s.m, Fill("Not Found"))
  }

  function ExecMod(s: State, key: string, value: string): State {
    if key in s.m then State(s.m[key := value], Fill("")) else State(s.m, Fill("Not Found"))
  }

  /** A blank request is not interpreted, and the previous reply is sent again. */
  function Exec(s: State, toks: seq<string>): State
    requires EnoughTokens(toks)
  {
    if toks == [] then s
    else
      var cmd := Command(toks[0]);
      if cmd == SKSET then ExecSet(s, toks[1], toks[2])
      else if cmd == SKGET then ExecGet(s, toks[1])
      else if cmd == SKDEL then ExecDel(s, toks[1])
      else if cmd == SKMOD then ExecMod(s, toks[1], toks[2])
      else if cmd == SKCOUNT then State(s.m, Fill(IntToString(|s.m|)))
      else State(s.m, Fill("Wrong Operation"))
  }

  function Step(s: State, r: string): State
    requires Request(r)
  {
    Exec(s, Tokens(r))
  }

  predicate Requests(rs: seq<string>) {
    forall r :: r in rs ==> Request(r)
  }

  function Final(s: State, rs: seq<string>): State
    requires Requests(rs)
  {
    if rs == [] then s else Step(Final(s, rs[..|rs| - 1]), rs[|rs| - 1])
  }

  function Replies(s: State, rs: seq<string>): seq<seq<char>>
    requires Requests(rs)
  {
    if rs == [] then [] else Replies(s, rs[..|rs| - 1]) + [Final(s, rs).wbuf]
  }

  // ----- what a client can read off the replies

  lemma {:induction false} CStringOfPadded(b: seq<char>, text: string, off: nat)
    requires '\0' !in text && off <= |text| < |b| && b[..|text|] == text && b[|text|] == '\0'
    ensures CString(b, off) == text[off..]
    decreases |text| - off
  {
    if off < |text| {
      assert b[off] == b[..|text|][off];
      CStringOfPadded(b, text, off + 1);
    }
  }

  lemma TextOfFill(text: string)
    requires '\0' !in text && |text| < REPLY_SIZE
    ensures Text(Fill(text)) == text
  {
    CStringOfPadded(Fill(text), text, 0);
  }

  /** A longer text is cut off at 1023 characters, and behind the text there are only NULs. */
  lemma FillCuts(text: string)
    requires '\0' !in text
    ensures Text(Fill(text)) == (if |text| < REPLY_SIZE then text else text[..REPLY_SIZE - 1])
    ensures forall j :: |Text(Fill(text))| <= j < REPLY_SIZE ==> Fill(text)[j] == '\0'
  {
    var t := if |text| < REPLY_SIZE then text else text[..REPLY_SIZE - 1];
    CStringOfPadded(Fill(text), t, 0);
  }

  /** A value that is a token of some request: no space, no NUL, not empty, short enough for a reply. */
  predicate Storable(v: string) {
    IsWord(v) && '\0' !in v && |v| < REPLY_SIZE
  }

  predicate Clean(m: map<string, string>) {
    forall k :: k in m ==> Storable(m[k])
  }

  lemma TokenStorable(r: string, k: nat)
    requires Request(r) && k < |Tokens(r)|
    ensures Storable(Tokens(r)[k])
  {
    TokensAreWords(r);
    assert Tokens(r)[k] in Tokens(r);
  }

  lemma StepKeepsClean(s: State, r: string)
    requires Clean(s.m) && Request(r)
    ensures Clean(Step(s, r).m)
  {
    if |Tokens(r)| >= 3 {
      TokenStorable(r, 2);
    }
  }

  lemma {:induction false} RunKeepsClean(s: State, rs: seq<string>)
    requires Clean(s.m) && Requests(rs)
    ensures Clean(Final(s, rs).m)
  {
    if rs != [] {
      RunKeepsClean(s, rs[..|rs| - 1]);
      StepKeepsClean(Final(s, rs[..|rs| - 1]), rs[|rs| - 1]);
    }
  }

  predicate Is(r: string, cmd: nat) {
    Request(r) && Tokens(r) != [] && Command(Tokens(r)[0]) == cmd
  }

  /**
   In any session from the empty map, an SKGET is answered "Not Found" exactly when its key is absent,
   and with the stored value, whole, when it is present.
   */
  lemma GetTellsTheMap(wbuf: seq<char>, rs: seq<string>, r: string)
    requires Requests(rs) && Is(r, SKGET)
    ensures var s := Final(State(map[], wbuf), rs);
            var key := Tokens(r)[1];
            var text := Text(Step(s, r).wbuf);
            && Step(s, r).m == s.m
            && (text == "Not Found" <==> key !in s.m)
            && (key in s.m ==> text == s.m[key])
  {
    var s := Final(State(map[], wbuf), rs);
    var key := Tokens(r)[1];
    RunKeepsClean(State(map[], wbuf), rs);
    if key in s.m {
      assert Storable(s.m[key]);
      TextOfFill(s.m[key]);
      assert "Not Found"[3] == ' ';
    } else {
      TextOfFill("Not Found");
    }
  }

  /** SKSET on a present key answers EXIST and keeps the old value; on an absent key it adds just that key. */
  lemma SetNeverOverwrites(s: State, r: string)
    requires Is(r, SKSET)
    ensures var key, s' := Tokens(r)[1], Step(s, r);
            && (Text(s'.wbuf) == "SUCCESS" <==> key !in s.m)
            && (Text(s'.wbuf) == "EXIST" <==> key in s.m)
            && s'.m == (if key in s.m then s.m else s.m[key := Tokens(r)[2]])
  {
    TextOfFill("SUCCESS");
    TextOfFill("EXIST");
  }

  /** SKMOD changes one value, keeps the keys and so the count; on an absent key it does nothing. */
  lemma ModifyKeepsCount(s: State, r: string)
    requires Is(r, SKMOD)
    ensures var key, s' := Tokens(r)[1], Step(s, r);
            && s'.m.Keys == s.m.Keys && |s'.m| == |s.m|
            && (forall k :: k in s.m && k != key ==> s'.m[k] == s.m[k])
            && (key in s.m ==> s'.m[key] == Tokens(r)[2] && Text(s'.wbuf) == "")
            && (key !in s.m ==> Text(s'.wbuf) == "Not Found")
  {
    var s' := Step(s, r);
    assert s'.m.Keys == s.m.Keys;
    assert |s'.m| == |s'.m.Keys| && |s.m| == |s.m.Keys|;
    TextOfFill("");
    TextOfFill("Not Found");
  }

  /**
   SKDEL takes its key out of the map, and nothing else; it answers with an empty text exactly for a present key,
   and "Not Found" exactly for an absent one.
   */
  lemma DelRemoves(s: State, r: string)
    requires Is(r, SKDEL)
    ensures var key, s' := Tokens(r)[1], Step(s, r);
            && key !in s'.m
            && (forall k :: k != key ==> (k in s'.m <==> k in s.m))
            && (forall k :: k in s'.m ==> s'.m[k] == s.m[k])
            && (Text(s'.wbuf) == "" <==> key in s.m)
            && (Text(s'.wbuf) == "Not Found" <==> key !in s.m)
  {
    TextOfFill("Not Found");
    TextOfFill("");
  }

  /** A first word that is no command is answered "Wrong Operation"; without any word nothing happens at all. */
  lemma OtherRequests(s: State, r: string)
    requires Request(r)
    ensures Tokens(r) == [] ==> Step(s, r) == s
    ensures Tokens(r) != [] && Tokens(r)[0] !in COMMANDS ==>
              Step(s, r).m == s.m && Text(Step(s, r).wbuf) == "Wrong Operation"
  {
    TextOfFill("Wrong Operation");
  }

  /** SKCOUNT answers the number of keys, in decimal, and changes nothing. */
  lemma CountTellsTheSize(s: State, r: string)
    requires Is(r, SKCOUNT)
    ensures var text := IntToString(|s.m|);
            && Step(s, r).m == s.m
            && Text(Step(s, r).wbuf) == (if |text| < REPLY_SIZE then text else text[..REPLY_SIZE - 1])
  {
    FillCuts(IntToString(|s.m|));
  }

  lemma CommandNames()
    ensures Command("SKSET") == SKSET && Command("SKGET") == SKGET && Command("SKDEL") == SKDEL
    ensures Command("SKMOD") == SKMOD && Command("SKCOUNT") == SKCOUNT
    ensures COMMANDS == ["SKSET", "SKGET", "SKDEL", "SKMOD", "SKCOUNT"]
    ensures Arity(SKSET) == 3 == Arity(SKMOD) && Arity(SKGET) == 2 == Arity(SKDEL) && Arity(SKCOUNT) == 1
  {
  }

  /** The SKSETs answered SUCCESS among requests and their replies. */
  function Added(rs: seq<string>, replies: seq<seq<char>>): nat
    requires |rs| == |replies|
  {
    if rs == [] then 0
    else
      var n := |rs| - 1;
      Added(rs[..n], replies[..n]) + if Is(rs[n], SKSET) && Text(replies[n]) == "SUCCESS" then 1 else 0
  }

  /** The SKDELs not answered "Not Found". */
  function Dropped(rs: seq<string>, replies: seq<seq<char>>): nat
    requires |rs| == |replies|
  {
    if rs == [] then 0
    else
      var n := |rs| - 1;
      Dropped(rs[..n], replies[..n]) + if Is(rs[n], SKDEL) && Text(replies[n]) != "Not Found" then 1 else 0
  }

  lemma {:induction false} OneReplyEach(s: State, rs: seq<string>)
    requires Requests(rs)
    ensures |Replies(s, rs)| == |rs|
  {
    if rs != [] {
      OneReplyEach(s, rs[..|rs| - 1]);
    }
  }

  lemma StepCount(s: State, r: string)
    requires Request(r)
    ensures |Step(s, r).m| == |s.m| + (if Is(r, SKSET) && Text(Step(s, r).wbuf) == "SUCCESS" then 1 else 0)
                                    - (if Is(r, SKDEL) && Text(Step(s, r).wbuf) != "Not Found" then 1 else 0)
  {
    TextOfFill("Not Found");
    TextOfFill("");
    if Is(r, SKSET) {
      SetNeverOverwrites(s, r);
    } else if Is(r, SKMOD) {
      ModifyKeepsCount(s, r);
    }
  }

  /** The size of the map is what the replies so far add up to. */
  lemma {:induction false} CountConserved(s: State, rs: seq<string>)
    requires Requests(rs)
    ensures |Replies(s, rs)| == |rs|
    ensures |Final(s, rs).m| == |s.m| + Added(rs, Replies(s, rs)) - Dropped(rs, Replies(s, rs))
  {
    OneReplyEach(s, rs);
    if rs != [] {
      var n := |rs| - 1;
      OneReplyEach(s, rs[..n]);
      CountConserved(s, rs[..n]);
      StepCount(Final(s, rs[..n]), rs[n]);
      assert Replies(s, rs)[..n] == Replies(s, rs[..n]);
    }
  }

  /** Hence every SKCOUNT is answered with the SUCCESS replies minus the successful SKDELs, in decimal. */
  lemma CountTellsTheReplies(wbuf: seq<char>, rs: seq<string>, r: string)
    requires Requests(rs) && Is(r, SKCOUNT)
    ensures var s0 := State(map[], wbuf);
            && |Replies(s0, rs)| == |rs|
            && Step(Final(s0, rs), r)
            == State(Final(s0, rs).m, Fill(IntToString(Added(rs, Replies(s0, rs)) - Dropped(rs, Replies(s0, rs)))))
  {
    CountConserved(State(map[], wbuf), rs);
  }

  /** A value stays readable until an SKDEL or SKMOD names its key. */
  lemma {:induction false} ValueStays(s: State, rs: seq<string>, key: string)
    requires Requests(rs) && key in s.m
    requires forall r :: r in rs && (Is(r, SKDEL) || Is(r, SKMOD)) ==> Tokens(r)[1] != key
    ensures key in Final(s, rs).m && Final(s, rs).m[key] == s.m[key]
  {
    if rs != [] {
      ValueStays(s, rs[..|rs| - 1], key);
      assert rs[|rs| - 1] in rs;
    }
  }

  // ----- how many tokens fit

  /** A request of at most 256 characters never fills the token table. */
  lemma ShortRequestsFit(r: string)
    requires |r| <= 2 * MAX_TOKENS
    ensures |Tokens(r)| <= MAX_TOKENS
  {
    TokenCount(r);
  }

  function Repeat(word: string, n: nat): (words: seq<string>)
    ensures |words| == n && forall i :: 0 <= i < n ==> words[i] == word
  {
    seq(n, _ => word)
  }

  lemma {:induction false} JoinLength(n: nat)
    requires n > 0
    ensures |Join(Repeat("a", n))| == 2 * n - 1 && '\0' !in Join(Repeat("a", n))
  {
    var words := Repeat("a", n);
    if n > 1 {
      JoinLength(n - 1);
      assert words[1..] == Repeat("a", n - 1);
      assert Join(words) == words[0] + " " + Join(words[1..]);
    }
  }

  /** One of 257 characters can: it fits the buffer, and has one token more than the table. */
  lemma LongerRequestsOverflow()
    ensures var r := Join(Repeat("a", MAX_TOKENS + 1));
            |r| == 2 * MAX_TOKENS + 1 < REPLY_SIZE && '\0' !in r && |Tokens(r)| == MAX_TOKENS + 1
  {
    var words := Repeat("a", MAX_TOKENS + 1);
    JoinLength(MAX_TOKENS + 1);
    assert forall w :: w in words ==> w == "a";
    TokensOfJoin(words);
  }
}
