/** `dump_file` and `load_file`: the list as lines `key:value`, with the file as one string. */
module Persistence {
  import opened Decimal
  import opened Options
  import opened SkipLists
  import Orders

  // ----- lines

  function IndexOf(s: string, c: char): (i: nat)
    ensures i <= |s| && (i < |s| ==> s[i] == c)
    ensures forall j :: 0 <= j < i ==> s[j] != c
  {
    if s == [] || s[0] == c then 0 else 1 + IndexOf(s[1..], c)
  }

  /** The lines `getline` delivers; a last line without newline counts, an empty rest does not. */
  function Lines(text: string): seq<string> {
    if text == [] then []
    else
      var i := IndexOf(text, '\n');
      if i == |text| then [text] else [text[..i]] + Lines(text[i + 1..])
  }

  // ----- what loading means: of the well-formed lines, the first one for a key wins

  type Entry = (Int32, string)

  datatype Parsed = Skip | Unreadable | Good(key: Int32, value: string)

  datatype Loaded = Loaded(contents: map<Int32, string>, completed: bool)

  function Parse(line: string): Parsed {
    var i := IndexOf(line, ':');
    if i == |line| || i == 0 || i + 1 == |line| then Skip
    else
      match Stoi(line[..i])
      case None => Unreadable
      case Some(k) => Good(k, line[i + 1..])
  }

  function Add(m: map<Int32, string>, k: Int32, v: string): map<Int32, string> {
    if k in m then m else m[k := v]
  }

  function FirstWins(m: map<Int32, string>, lines: seq<string>): Loaded
    decreases |lines|
  {
    if lines == [] then Loaded(m, true)
    else
      match Parse(lines[0])
      case Skip => FirstWins(m, lines[1..])
      case Unreadable => Loaded(m, false)
      case Good(k, v) => FirstWins(Add(m, k, v), lines[1..])
  }

  // ----- dump

  function Line(e: Entry): string {
    IntToString(e.0) + ":" + e.1
  }

  function DumpText(entries: seq<Entry>): string {
    if entries == [] then "" else Line(entries[0]) + "\n" + DumpText(entries[1..])
  }

  ghost function EntryOf(node: Node<Int32>): Entry {
    (node.key, node.value)
  }

  /** The pairs of the nodes from place p on. */
  ghost function Entries(chain: seq<Node<Int32>>, p: nat): (es: seq<Entry>)
    requires p <= |chain|
    ensures |es| == |chain| - p
    ensures forall a :: 0 <= a < |es| ==> es[a] == EntryOf(chain[p + a])
  {
    seq(|chain| - p, a requires 0 <= a < |chain| - p => EntryOf(chain[p + a]))
  }

  /** A text, and the lines of the nodes from place p on. */
  ghost function Dumped(text: string, chain: seq<Node<Int32>>, p: nat): string
    requires p <= |chain|
  {
    text + DumpText(Entries(chain, p))
  }

  lemma DumpDone(text: string, chain: seq<Node<Int32>>)
    ensures Dumped(text, chain, |chain|) == text
  {
    assert Entries(chain, |chain|) == [];
  }

  lemma DumpOneMore(text: string, chain: seq<Node<Int32>>, p: nat)
    requires p < |chain|
    ensures Dumped(text + (Line(EntryOf(chain[p])) + "\n"), chain, p + 1) == Dumped(text, chain, p)
  {
    assert Entries(chain, p)[1..] == Entries(chain, p + 1);
  }

  lemma NextIs(list: SkipList<Int32>, node: Node<Int32>, p: nat)
    requires list.Body() && list.Linked() && p < |list.chain| && list.chain[p] == node
    ensures node.forward.Length > 0 && node.forward[0] == At(list.chain, p + 1)
  {
    list.GroundSuccessor(p);
  }

  /** `dump_file`, along level 0. */
  method DumpFile(list: SkipList<Int32>) returns (text: string)
    requires list.Body() && list.Linked()
    ensures text == DumpText(Entries(list.chain, 1))
  {
    text := "";
    ghost var chain, p: nat := list.chain, 1;
    NextIs(list, list.header, 0);
    var node := list.header.forward[0];
    while node != null
      invariant 1 <= p <= |chain| && node == At(chain, p)
      invariant Dumped(text, chain, p) == DumpText(Entries(chain, 1))
      decreases |chain| - p
    {
      DumpOneMore(text, chain, p);
      text := text + (Line((node.key, node.value)) + "\n");
      NextIs(list, node, p);
      node := node.forward[0];
      p := p + 1;
    }
    DumpDone(text, chain);
  }

  // ----- load

  /** `is_valid_string` and `get_key_value_from_string`: a line without delimiter leaves key and value as they were. */
  method GetKeyValueFromString(line: string, key: string, value: string) returns (newKey: string, newValue: string)
    ensures var i := IndexOf(line, ':');
            if i == |line| then newKey == key && newValue == value
            else newKey == line[..i] && newValue == line[i + 1..]
  {
    newKey, newValue := key, value;
    var i := IndexOf(line, ':');
    if line == "" || i == |line| {
      return;
    }
    newKey := line[..i];
    newValue := line[i + 1..];
  }

  /** `getline`, on a file that is not exhausted. */
  method GetLine(text: string) returns (line: string, rest: string)
    requires text != ""
    ensures Lines(text) == [line] + Lines(rest) && |rest| < |text|
  {
    var i := IndexOf(text, '\n');
    line := text[..i];
    rest := if i == |text| then "" else text[i + 1..];
    assert i == |text| ==> line == text;
  }

  /** The key and value left over from an earlier line are harmless: their key has been inserted already. */
  predicate Stale(key: string, value: string, m: map<Int32, string>) {
    key != "" && value != "" ==> Stoi(key).Some? && Stoi(key).value in m
  }

  /** One turn of the loading loop. `thrown` is true when `stoi` throws. */
  method LoadLine(list: SkipList<Int32>, line: string, key: string, value: string, draw: nat)
    returns (newKey: string, newValue: string, thrown: bool)
    requires list.Valid() && Stale(key, value, list.contents)
    modifies list, list.Repr
    ensures list.Valid() && fresh(list.Repr - old(list.Repr))
    ensures thrown <==> Parse(line).Unreadable?
    ensures list.contents == if Parse(line).Good? then Add(old(list.contents), Parse(line).key, Parse(line).value)
                             else old(list.contents)
    ensures !thrown ==> Stale(newKey, newValue, list.contents)
  {
    thrown := false;
    newKey, newValue := GetKeyValueFromString(line, key, value);
    if newKey != "" && newValue != "" {
      var k := Stoi(newKey);
      if k.None? {
        thrown := true;
      } else {
        var r, pos := list.InsertElement(k.value, newValue, draw);
      }
    }
  }

  /** `completed` is false when `stoi` throws. `draws` supplies the random draws, one per line. */
  method LoadFile(list: SkipList<Int32>, text: string, draws: nat -> nat) returns (completed: bool)
    requires list.Valid()
    modifies list, list.Repr
    ensures list.Valid() && fresh(list.Repr - old(list.Repr))
    ensures Loaded(list.contents, completed) == FirstWins(old(list.contents), Lines(text))
  {
    var key, value := "", "";
    var rest, n: nat := text, 0;
    while rest != ""
      invariant list.Valid() && fresh(list.Repr - old(list.Repr))
      invariant Stale(key, value, list.contents)
      invariant FirstWins(list.contents, Lines(rest)) == FirstWins(old(list.contents), Lines(text))
      decreases |rest|
    {
      ghost var lines := Lines(rest);
      var line, thrown;
      line, rest := GetLine(rest);
      assert lines[0] == line && lines[1..] == Lines(rest);
      key, value, thrown := LoadLine(list, line, key, value, draws(n));
      if thrown {
        return false;
      }
      n := n + 1;
    }
    completed := true;
  }

  // ----- what loading means, line by line

  /** Lines without newline, each ended by one, and a last one that may lack it, are delivered as they are. */
  function Unlines(lines: seq<string>): string {
    if lines == [] then "" else lines[0] + "\n" + Unlines(lines[1..])
  }

  lemma LinesOfLine(line: string, rest: string)
    requires '\n' !in line
    ensures Lines(line + ['\n'] + rest) == [line] + Lines(rest)
  {
    var text := line + ['\n'] + rest;
    IndexOfAppend(line, '\n', rest);
    assert text[..|line|] == line && text[|line| + 1..] == rest;
  }

  lemma {:induction false} LinesExact(lines: seq<string>, last: string)
    requires (forall i :: 0 <= i < |lines| ==> '\n' !in lines[i]) && '\n' !in last
    ensures Lines(Unlines(lines) + last) == lines + if last == "" then [] else [last]
    decreases |lines|
  {
    if lines == [] {
      assert Unlines(lines) + last == last;
    } else {
      LinesExact(lines[1..], last);
      LinesOfLine(lines[0], Unlines(lines[1..]) + last);
      assert Unlines(lines) + last == lines[0] + ['\n'] + (Unlines(lines[1..]) + last);
    }
  }

  /** A line is split at its first colon: before it is the key, as `stoi` reads it, and all behind it is the value. */
  lemma ParseExact(key: string, value: string)
    requires ':' !in key
    ensures key == "" || value == "" ==> Parse(key + ":" + value) == Skip
    ensures key != "" && value != "" && Stoi(key).None? ==> Parse(key + ":" + value) == Unreadable
    ensures key != "" && value != "" && Stoi(key).Some? ==> Parse(key + ":" + value) == Good(Stoi(key).value, value)
  {
    IndexOfAppend(key, ':', value);
    var line := key + [':'] + value;
    assert key + ":" + value == line;
    assert line[..|key|] == key && line[|key| + 1..] == value;
  }

  /** A line without colon is skipped. */
  lemma ParseNothing(line: string)
    requires ':' !in line
    ensures Parse(line) == Skip
  {
  }

  /** Line i is the first that gives key k a value. */
  predicate FirstFor(lines: seq<string>, k: Int32, i: nat) {
    && i < |lines| && Parse(lines[i]).Good? && Parse(lines[i]).key == k
    && forall j :: 0 <= j < i ==> !(Parse(lines[j]).Good? && Parse(lines[j]).key == k)
  }

  predicate AllReadable(lines: seq<string>) {
    forall i :: 0 <= i < |lines| ==> !Parse(lines[i]).Unreadable?
  }

  /**
   Loading lines that can all be read keeps what was there and adds, for each key not there, the value of the first
   line for it, and nothing else.
   */
  lemma {:induction false} FirstLineWins(m: map<Int32, string>, lines: seq<string>, k: Int32)
    requires AllReadable(lines)
    ensures FirstWins(m, lines).completed
    ensures k in m ==> k in FirstWins(m, lines).contents && FirstWins(m, lines).contents[k] == m[k]
    ensures k !in m && k in FirstWins(m, lines).contents ==>
              exists i: nat :: FirstFor(lines, k, i) && FirstWins(m, lines).contents[k] == Parse(lines[i]).value
    ensures k !in m && k !in FirstWins(m, lines).contents ==> forall i :: !FirstFor(lines, k, i)
    decreases |lines|
  {
    if lines != [] {
      var first, rest := Parse(lines[0]), lines[1..];
      var m' := if first.Good? && first.key !in m then m[first.key := first.value] else m;
      assert FirstWins(m, lines) == FirstWins(m', rest);
      forall i | 0 <= i < |rest| ensures !Parse(rest[i]).Unreadable? {
        assert rest[i] == lines[i + 1];
      }
      FirstLineWins(m', rest, k);
      if k !in m {
        if first.Good? && first.key == k {
          assert FirstFor(lines, k, 0) && FirstWins(m, lines).contents[k] == Parse(lines[0]).value;
        } else {
          FirstForLater(lines, k);
          if k in FirstWins(m', rest).contents {
            var i: nat :| FirstFor(rest, k, i) && FirstWins(m', rest).contents[k] == Parse(rest[i]).value;
            assert FirstFor(lines, k, i + 1) && lines[i + 1] == rest[i];
          }
        }
      }
    }
  }

  lemma FirstForLater(lines: seq<string>, k: Int32)
    requires lines != [] && !(Parse(lines[0]).Good? && Parse(lines[0]).key == k)
    ensures forall i: nat :: FirstFor(lines, k, i) <==> i > 0 && FirstFor(lines[1..], k, i - 1)
  {
    forall i: nat ensures FirstFor(lines, k, i) <==> i > 0 && FirstFor(lines[1..], k, i - 1) {
      if i > 0 && FirstFor(lines[1..], k, i - 1) {
        forall j | 0 <= j < i ensures !(Parse(lines[j]).Good? && Parse(lines[j]).key == k) {
          assert j > 0 ==> lines[j] == lines[1..][j - 1];
        }
      }
      if FirstFor(lines, k, i) {
        forall j | 0 <= j < i - 1 ensures !(Parse(lines[1..][j]).Good? && Parse(lines[1..][j]).key == k) {
          assert lines[1..][j] == lines[j + 1];
        }
      }
    }
  }

  /** At a line whose key cannot be read loading stops, with what the lines before it gave. */
  lemma {:induction false} StopsAtUnreadable(m: map<Int32, string>, lines: seq<string>, rest: seq<string>)
    requires AllReadable(lines) && rest != [] && Parse(rest[0]).Unreadable?
    ensures FirstWins(m, lines + rest) == Loaded(FirstWins(m, lines).contents, false)
    decreases |lines|
  {
    if lines == [] {
      assert lines + rest == rest;
    } else {
      assert (lines + rest)[0] == lines[0] && (lines + rest)[1..] == lines[1..] + rest;
      var m' := if Parse(lines[0]).Good? then Add(m, Parse(lines[0]).key, Parse(lines[0]).value) else m;
      forall i | 0 <= i < |lines[1..]| ensures !Parse(lines[1..][i]).Unreadable? {
        assert lines[1..][i] == lines[i + 1];
      }
      StopsAtUnreadable(m', lines[1..], rest);
    }
  }

  /** A dumped line is the key in decimal, a colon, and the value. */
  lemma LineExact(e: Entry)
    ensures var i := IndexOf(Line(e), ':');
            i == |IntToString(e.0)| && Line(e)[..i] == IntToString(e.0) && Line(e)[i..] == ":" + e.1
  {
    assert Line(e) == IntToString(e.0) + [':'] + e.1;
    IndexOfAppend(IntToString(e.0), ':', e.1);
  }

  // ----- round trip

  predicate Storable(v: string) {
    v != "" && '\n' !in v
  }

  lemma {:induction false} IndexOfAppend(a: string, c: char, b: string)
    requires c !in a
    ensures IndexOf(a + [c] + b, c) == |a|
  {
    if a == [] {
      assert a + [c] + b == [c] + b;
    } else {
      assert (a + [c] + b)[1..] == a[1..] + [c] + b;
      IndexOfAppend(a[1..], c, b);
    }
  }

  lemma LinesOfDump(entries: seq<Entry>)
    requires entries != [] && '\n' !in entries[0].1
    ensures Lines(DumpText(entries)) == [Line(entries[0])] + Lines(DumpText(entries[1..]))
  {
    assert '\n' !in Line(entries[0]);
    LinesOfLine(Line(entries[0]), DumpText(entries[1..]));
    assert DumpText(entries) == Line(entries[0]) + ['\n'] + DumpText(entries[1..]);
  }

  lemma ParseOfLine(e: Entry)
    requires e.1 != ""
    ensures Parse(Line(e)) == Good(e.0, e.1)
  {
    var k := IntToString(e.0);
    assert Line(e) == k + [':'] + e.1;
    assert ':' !in k;
    IndexOfAppend(k, ':', e.1);
    assert Line(e)[..|k|] == k && Line(e)[|k| + 1..] == e.1;
    StoiOfPrinted(e.0);
  }

  function Absorb(m: map<Int32, string>, entries: seq<Entry>): map<Int32, string>
    decreases |entries|
  {
    if entries == [] then m else Absorb(Add(m, entries[0].0, entries[0].1), entries[1..])
  }

  lemma {:induction false} LoadOfDump(m: map<Int32, string>, entries: seq<Entry>)
    requires forall e :: e in entries ==> Storable(e.1)
    ensures FirstWins(m, Lines(DumpText(entries))) == Loaded(Absorb(m, entries), true)
    decreases |entries|
  {
    if entries != [] {
      LinesOfDump(entries);
      ParseOfLine(entries[0]);
      var lines := Lines(DumpText(entries));
      assert lines[0] == Line(entries[0]) && lines[1..] == Lines(DumpText(entries[1..]));
      LoadOfDump(Add(m, entries[0].0, entries[0].1), entries[1..]);
    }
  }

  predicate DistinctKeys(entries: seq<Entry>) {
    forall a, b :: 0 <= a < b < |entries| ==> entries[a].0 != entries[b].0
  }

  /** Entries with distinct new keys are all taken over, and nothing else changes. */
  lemma {:induction false} AbsorbDistinct(m: map<Int32, string>, entries: seq<Entry>)
    requires DistinctKeys(entries)
    requires forall e :: e in entries ==> e.0 !in m
    ensures forall e :: e in entries ==> e.0 in Absorb(m, entries) && Absorb(m, entries)[e.0] == e.1
    ensures forall k :: k in m ==> k in Absorb(m, entries) && Absorb(m, entries)[k] == m[k]
    ensures forall k :: k in Absorb(m, entries) ==> k in m || exists e :: e in entries && e.0 == k
    decreases |entries|
  {
    if entries != [] {
      var m', rest := Add(m, entries[0].0, entries[0].1), entries[1..];
      assert forall e :: e in rest ==> e in entries;
      AbsorbDistinct(m', rest);
      assert entries[0].0 in m';
    }
  }

  lemma EntriesDistinct(lt: (Int32, Int32) -> bool, chain: seq<Node<Int32>>)
    requires Orders.StrictTotal(lt) && Sorted(lt, chain) && |chain| >= 1
    ensures DistinctKeys(Entries(chain, 1))
  {
    var es := Entries(chain, 1);
    forall a, b | 0 <= a < b < |es| ensures es[a].0 != es[b].0 {
      assert Pair(1 + a, 1 + b) && Orders.Chosen(es[a].0, es[a].0, es[a].0);
    }
  }

  lemma EntriesStored(chain: seq<Node<Int32>>, contents: map<Int32, string>)
    requires Stores(chain, contents) && |chain| >= 1
    ensures SamePairs(Entries(chain, 1), contents)
  {
    assert Open(StoresFact);
    forall k | k in contents ensures (k, contents[k]) in Entries(chain, 1) {
      var p :| 1 <= p < |chain| && chain[p].key == k;
      assert Entries(chain, 1)[p - 1] == (k, contents[k]);
    }
  }

  predicate SamePairs(entries: seq<Entry>, contents: map<Int32, string>) {
    && (forall e :: e in entries ==> e.0 in contents && contents[e.0] == e.1)
    && (forall k :: k in contents ==> (k, contents[k]) in entries)
  }

  lemma AbsorbSamePairs(entries: seq<Entry>, contents: map<Int32, string>)
    requires DistinctKeys(entries) && SamePairs(entries, contents)
    ensures Absorb(map[], entries) == contents
  {
    AbsorbDistinct(map[], entries);
    var m := Absorb(map[], entries);
    forall k ensures k in m <==> k in contents {
      if k in contents {
        assert (k, contents[k]) in entries;
      }
    }
    forall k | k in contents ensures m[k] == contents[k] {
      var e := (k, contents[k]);
      assert e in entries;
      assert m[e.0] == e.1;
    }
  }

  /** What is dumped are the pairs of the map, each once. */
  lemma DumpedIsContents(list: SkipList<Int32>)
    requires list.Valid()
    ensures DistinctKeys(Entries(list.chain, 1)) && SamePairs(Entries(list.chain, 1), list.contents)
  {
    EntriesDistinct(list.lt, list.chain);
    EntriesStored(list.chain, list.contents);
  }

  lemma {:induction false} LoadedAreStorable(m: map<Int32, string>, lines: seq<string>)
    requires forall k :: k in m ==> Storable(m[k])
    requires forall line :: line in lines ==> '\n' !in line
    ensures forall k :: k in FirstWins(m, lines).contents ==> Storable(FirstWins(m, lines).contents[k])
    decreases |lines|
  {
    if lines != [] {
      assert '\n' !in lines[0];
      match Parse(lines[0])
      case Skip => LoadedAreStorable(m, lines[1..]);
      case Unreadable =>
      case Good(k, v) => LoadedAreStorable(Add(m, k, v), lines[1..]);
    }
  }

  lemma {:induction false} LinesHaveNoNewline(text: string)
    ensures forall line :: line in Lines(text) ==> '\n' !in line
    decreases |text|
  {
    if text != [] {
      var i := IndexOf(text, '\n');
      if i < |text| {
        LinesHaveNoNewline(text[i + 1..]);
      }
    }
  }

  /** A value that is empty is dumped, but not loaded again. */
  lemma EmptyValueIsLost(k: Int32)
    ensures FirstWins(map[], Lines(DumpText([(k, "")]))) == Loaded(map[], true)
  {
    var e: Entry := (k, "");
    assert DumpText([e]) == Line(e) + "\n" + "" by {
      assert [e][1..] == [];
    }
    LinesOfDump([e]);
    assert [e][1..] == [];
    IndexOfAppend(IntToString(k), ':', "");
    assert Line(e) == IntToString(k) + [':'] + "";
    assert Parse(Line(e)) == Skip;
  }

  /** Dumping and loading into an empty list restores the map exactly when no value is empty or has a newline. */
  lemma RoundTrip(list: SkipList<Int32>)
    requires list.Valid()
    ensures FirstWins(map[], Lines(DumpText(Entries(list.chain, 1)))) == Loaded(list.contents, true)
       <==> forall k :: k in list.contents ==> Storable(list.contents[k])
  {
    var entries := Entries(list.chain, 1);
    DumpedIsContents(list);
    AbsorbSamePairs(entries, list.contents);
    if forall k :: k in list.contents ==> Storable(list.contents[k]) {
      LoadOfDump(map[], entries);
    } else {
      LinesHaveNoNewline(DumpText(entries));
      LoadedAreStorable(map[], Lines(DumpText(entries)));
    }
  }
}
