/** The KV server: one skip list and one set of buffers per connection. */
module KVServer {
  import opened Decimal
  import opened Tokenizer
  import opened KVProtocol
  import opened SkipLists
  import Orders

  const MAX_LEVEL: nat := 6

  /** SKMOD's delete and insert; the node is a new one, of a new height. */
  method Replace(list: SkipList<string>, key: string, value: string, draw: nat)
    requires list.Valid()
    modifies list, list.Repr
    ensures list.Valid() && fresh(list.Repr - old(list.Repr))
    ensures list.contents == old(list.contents)[key := value]
  {
    ghost var m := list.contents;
    var pos := list.DeleteElement(key);
    var r, pos' := list.InsertElement(key, value, draw);
    PutBack(m, key, value);
  }

  lemma PutBack(m: map<string, string>, key: string, value: string)
    ensures (m - {key})[key := value] == m[key := value]
  {
  }

  /** What `handleClient` hangs on the socket. */
  class Session {
    const list: SkipList<string>
    const rbuf: array<char>
    const wbuf: array<char>
    const kvlist: array<nat>  // places in rbuf

    ghost predicate Valid()
      reads this, list, list.Repr
    {
      && list.Valid() && list.lt == Orders.StringLess
      && rbuf != wbuf && rbuf.Length == wbuf.Length == REPLY_SIZE && kvlist.Length == MAX_TOKENS
    }

    ghost function Abs(): State
      reads list, wbuf
    {
      State(list.contents, wbuf[..])
    }

    /** `first` is what the allocator left in the reply buffer. */
    constructor (first: seq<char>)
      requires |first| == REPLY_SIZE
      ensures Valid() && fresh(list) && fresh(list.Repr) && fresh(rbuf) && fresh(wbuf) && fresh(kvlist)
      ensures list.contents == map[] && list.maxLevel == 6 && wbuf[..] == first
    {
      Orders.StringLessIsStrictTotal();
      list := new SkipList<string>(Orders.StringLess, MAX_LEVEL);
      rbuf := new char[REPLY_SIZE];
      wbuf := new char[REPLY_SIZE](i requires 0 <= i < |first| => first[i]);
      kvlist := new nat[MAX_TOKENS];
    }

    /** `memset` of one byte and `recv`: the request and its NUL; what lies behind is left from earlier requests. */
    method Receive(r: string)
      requires |r| < rbuf.Length
      modifies rbuf
      ensures rbuf[..|r|] == r && rbuf[|r|] == '\0'
    {
      rbuf[0] := '\0';
      for i := 0 to |r|
        invariant rbuf[..i] == r[..i]
      {
        rbuf[i] := r[i];
      }
      rbuf[|r|] := '\0';
    }

    /** `memset` of the reply buffer, and `snprintf` of a text into it, cut off to leave room for the NUL. */
    method Reply(text: string)
      requires wbuf.Length == REPLY_SIZE
      modifies wbuf
      ensures wbuf[..] == Fill(text)
    {
      for i := 0 to REPLY_SIZE
        invariant forall j :: 0 <= j < i ==> wbuf[j] == '\0'
      {
        wbuf[i] := '\0';
      }
      var n := 0;
      while n < |text| && n < REPLY_SIZE - 1
        invariant n <= |text| && n <= REPLY_SIZE - 1
        invariant forall j :: 0 <= j < REPLY_SIZE ==> wbuf[j] == if j < n then text[j] else '\0'
      {
        wbuf[n] := text[n];
        n := n + 1;
      }
      wbuf[n] := '\0';
    }

    /** The loop over `commands` with `strcmp`. */
    method FindCommand(name: string) returns (cmd: nat)
      ensures cmd == Command(name)
    {
      cmd := 0;
      while cmd < |COMMANDS|
        invariant cmd <= |COMMANDS| && cmd <= Command(name)
      {
        if COMMANDS[cmd] == name {
          return;
        }
        cmd := cmd + 1;
      }
    }

    // ----- the cases of `kvstore_parser_protocol`

    method Set(key: string, value: string, draw: nat)
      requires Valid()
      modifies list, list.Repr, wbuf
      ensures Valid() && fresh(list.Repr - old(list.Repr))
      ensures Abs() == ExecSet(old(Abs()), key, value)
    {
      var found := list.SearchElement(key);
      if found {
        Reply("EXIST");
      } else {
        var r, pos := list.InsertElement(key, value, draw);
        Reply(if r == 0 then "SUCCESS" else "FAILED");
      }
    }

    method Get(key: string)
      requires Valid()
      modifies wbuf
      ensures Valid()
      ensures Abs() == ExecGet(old(Abs()), key)
    {
      var found := list.SearchElement(key);
      if found {
        var value := list.GetElement(key);
        Reply(value);
      } else {
        Reply("Not Found");
      }
    }

    method Del(key: string)
      requires Valid()
      modifies list, list.Repr, wbuf
      ensures Valid() && list.Repr <= old(list.Repr)
      ensures Abs() == ExecDel(old(Abs()), key)
    {
      var found := list.SearchElement(key);
      if found {
        var pos := list.DeleteElement(key);
        Reply("");
      } else {
        Reply("Not Found");
      }
    }

    method Mod(key: string, value: string, draw: nat)
      requires Valid()
      modifies list, list.Repr, wbuf
      ensures Valid() && fresh(list.Repr - old(list.Repr))
      ensures Abs() == ExecMod(old(Abs()), key, value)
    {
      var found := list.SearchElement(key);
      if found {
        Replace(list, key, value, draw);
        Reply("");
      } else {
        Reply("Not Found");
      }
    }

    method Count()
      requires Valid()
      modifies wbuf
      ensures Valid()
      ensures Abs() == State(old(Abs()).m, Fill(IntToString(|old(Abs()).m|)))
    {
      var n := list.Size();
      Reply(IntToString(n));
    }

    /** `kvstore_parser_protocol`. `draw` stands for the random draws of an insertion. */
    method ParserProtocol(count: nat, draw: nat, ghost toks: seq<string>)
      requires Valid() && count == |toks| <= kvlist.Length
      requires forall k :: 0 <= k < count ==> CString(rbuf[..], kvlist[k]) == toks[k]
      requires EnoughTokens(toks)
      modifies list, list.Repr, wbuf
      ensures Valid() && fresh(list.Repr - old(list.Repr))
      ensures Abs() == Exec(old(Abs()), toks)
    {
      if count == 0 {
        return;
      }
      var cmd := FindCommand(CString(rbuf[..], kvlist[0]));
      var key, value := CString(rbuf[..], kvlist[1]), CString(rbuf[..], kvlist[2]);
      match cmd
      case 0 => Set(key, value, draw);
      case 1 => Get(key);
      case 2 => Del(key);
      case 3 => Mod(key, value, draw);
      case 4 => Count();
      case _ => Reply("Wrong Operation");
    }

    /** One turn of the request loop. */
    method HandleRequest(r: string, draw: nat) returns (reply: seq<char>)
      requires Valid() && Request(r)
      modifies list, list.Repr, rbuf, wbuf, kvlist
      ensures Valid() && fresh(list.Repr - old(list.Repr))
      ensures Abs() == Step(old(Abs()), r) && reply == Abs().wbuf
    {
      Receive(r);
      CStringOfPadded(rbuf[..], r, 0);
      assert r[0..] == r;
      assert rbuf[..][|r|] == '\0';
      var count := Tokenize(rbuf, kvlist);
      ParserProtocol(count, draw, Tokens(r));
      reply := wbuf[..];
    }
  }

  /**
   `handleClient`: the replies to a whole session are those of the map machine, from the empty map.
   The reply buffer starts out as the allocator left it, `first`.
   */
  method HandleClient(requests: seq<string>, draws: nat -> nat, first: seq<char>) returns (replies: seq<seq<char>>)
    requires Requests(requests) && |first| == REPLY_SIZE
    ensures replies == Replies(State(map[], first), requests)
  {
    var session := new Session(first);
    ghost var s0 := session.Abs();
    replies := [];
    for n := 0 to |requests|
      invariant session.Valid() && fresh(session) && fresh(session.list) && fresh(session.list.Repr)
      invariant fresh(session.rbuf) && fresh(session.wbuf) && fresh(session.kvlist)
      invariant session.Abs() == Final(s0, requests[..n])
      invariant replies == Replies(s0, requests[..n])
    {
      assert requests[..n + 1][..n] == requests[..n];
      var reply := session.HandleRequest(requests[n], draws(n));
      replies := replies + [reply];
    }
    session.list.Destroy();
    assert requests[..|requests|] == requests;
  }
}
