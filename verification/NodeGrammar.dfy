/**
 The wire format of node trees and frames, byte for byte, as a grammar over that of
 strings (crates/wa-binary/src/codec.rs): what the reader accepts, and nothing else.
 */
module NodeGrammar {
  import opened Prelude
  import opened SortedMap
  import opened Tokens
  import opened NodeFormat
  import opened NodeTheorems
  import opened NodeWire

  // ----- The grammar -----------------------------------------------------------

  /** The size of a list: nothing, one byte, or two. */
  predicate ListHead(e: Bytes, size: nat) {
    || (e == [0] && size == 0)
    || (|e| == 2 && e[0] == 248 && e[1] as nat == size)
    || (|e| == 3 && e[0] == 249 && e[1] as nat * 256 + e[2] as nat == size)
  }

  /** Keys and values in turn. */
  ghost predicate SpellsPairs(T: Table, e: Bytes, pairs: Attrs)
    requires Shape(T)
    decreases |pairs|
  {
    if pairs == [] then e == [] else exists a: nat, b: nat :: PairsCut(T, e, pairs, a, b)
  }

  ghost predicate PairsCut(T: Table, e: Bytes, pairs: Attrs, a: nat, b: nat)
    requires Shape(T) && pairs != []
    decreases |pairs|, 0
  {
    && a <= b <= |e|
    && Spells(T, e[..a], pairs[0].key) && Spells(T, e[a..b], pairs[0].val) && SpellsPairs(T, e[b..], pairs[1..])
  }

  /** A list of nodes, bytes, or a text that does not begin like either. */
  ghost predicate SpellsContent(T: Table, e: Bytes, c: Content)
    requires Shape(T)
    decreases |e|, 0
  {
    match c
    case Nodes(ns) => exists h: nat :: 0 < h <= |e| && ListHead(e[..h], |ns|) && SpellsNodes(T, e[h..], ns)
    case BytesContent(b) => IsRaw(e, b)
    case TextContent(t) => Spells(T, e, t) && e != [] && e[0] !in [0, 248, 249, 252, 253, 254]
  }

  ghost predicate SpellsNodes(T: Table, e: Bytes, ns: seq<Node>)
    requires Shape(T)
    decreases |e|, 3, |ns|
  {
    if ns == [] then e == []
    else exists cut: nat :: cut <= |e| && SpellsNode(T, e[..cut], ns[0]) && SpellsNodes(T, e[cut..], ns[1..])
  }

  /** The bytes `e` spell the node `n`. */
  ghost predicate SpellsNode(T: Table, e: Bytes, n: Node)
    requires Shape(T)
    decreases |e|, 2
  {
    exists a: nat, b: nat, c: nat, pairs :: NodeCut(T, e, n, a, b, c, pairs)
  }

  /**
   A list of one tag, the pairs and perhaps a content; of pairs with one key the last
   one counts.
   */
  ghost predicate NodeCut(T: Table, e: Bytes, n: Node, a: nat, b: nat, c: nat, pairs: Attrs)
    requires Shape(T)
    decreases |e|, 1
  {
    && 0 < a <= b <= c <= |e|
    && ListHead(e[..a], 1 + 2 * |pairs| + (if n.content.Some? then 1 else 0))
    && Spells(T, e[a..b], n.tag) && n.tag != []
    && SpellsPairs(T, e[b..c], pairs) && n.attrs == InsertAll([], pairs)
    && (if n.content.Some? then SpellsContent(T, e[c..], n.content.value) else c == |e|)
  }

  // ----- Reading what the grammar derives ----------------------------------------

  lemma HeadReads(e: Bytes, size: nat, rest: Bytes)
    requires ListHead(e, size)
    ensures e != [] && IsListTag(e[0]) && ReadListSize(e[0], e[1..] + rest) == Ok(Parsed(size, rest))
  {
    if |e| == 1 {
      assert e[1..] + rest == rest;
    } else if |e| == 2 {
      assert e[1..] + rest == [e[1]] + rest;
    } else {
      var s := e[1..] + rest;
      assert s == [e[1], e[2]] + rest && s[1..] == [e[2]] + rest && s[1..][1..] == rest;
      assert ReadInt(s, 2, 0) == ReadInt(s[1..], 1, e[1] as nat);
    }
  }

  lemma FirstPair(T: Table, e: Bytes, pairs: Attrs) returns (a: nat, b: nat)
    requires Shape(T) && pairs != [] && SpellsPairs(T, e, pairs)
    ensures PairsCut(T, e, pairs, a, b)
  {
    a, b :| PairsCut(T, e, pairs, a, b);
  }

  /** The first of some attributes, and the others after it. */
  lemma PairThen(T: Table, count: nat, k: Bytes, v: Bytes, s: Bytes, pair: Entry<Bytes>, acc: Attrs, r: Decoded<Attrs>)
    requires Shape(T) && Spells(T, k, pair.key) && Spells(T, v, pair.val)
    requires ReadAttrs(T, count, s, Insert(acc, pair.key, pair.val)) == r
    ensures ReadAttrs(T, count + 1, k + (v + s), acc) == r
  {
    SpelledReads(T, k, pair.key, v + s);
    SpelledReads(T, v, pair.val, s);
    ReadAttrsStep(T, count, k, v, s, pair.key, pair.val, acc);
  }

  lemma ThreePieces(e: Bytes, a: nat, b: nat, rest: Bytes)
    requires a <= b <= |e|
    ensures e + rest == e[..a] + (e[a..b] + (e[b..] + rest))
  {
  }

  lemma {:induction false} PairsRead(T: Table, e: Bytes, pairs: Attrs, acc: Attrs, rest: Bytes)
    requires Shape(T) && SpellsPairs(T, e, pairs)
    ensures ReadAttrs(T, |pairs|, e + rest, acc) == Ok(Parsed(InsertAll(acc, pairs), rest))
    decreases |pairs|
  {
    if pairs == [] {
      assert e + rest == rest;
    } else {
      var a, b := FirstPair(T, e, pairs);
      PairsRead(T, e[b..], pairs[1..], Insert(acc, pairs[0].key, pairs[0].val), rest);
      PairThen(T, |pairs| - 1, e[..a], e[a..b], e[b..] + rest, pairs[0], acc, Ok(Parsed(InsertAll(acc, pairs), rest)));
      ThreePieces(e, a, b, rest);
    }
  }

  /** A text that begins like neither nodes nor bytes. */
  lemma ContentOfString(T: Table, s: Bytes, t: Bytes, rest: Bytes)
    requires Shape(T) && s != [] && s[0] !in [0, 248, 249, 252, 253, 254] && ReadString(T, s) == Ok(Parsed(t, rest))
    ensures ReadContent(T, s) == Ok(Parsed(TextContent(t), rest))
  {
    assert !IsListTag(s[0]) && !IsBinaryTag(s[0]);
  }

  lemma TextReads(T: Table, e: Bytes, t: Bytes, rest: Bytes)
    requires Shape(T) && Spells(T, e, t) && e != [] && e[0] !in [0, 248, 249, 252, 253, 254]
    ensures ReadContent(T, e + rest) == Ok(Parsed(TextContent(t), rest))
  {
    SpelledReads(T, e, t, rest);
    ContentOfString(T, e + rest, t, rest);
  }

  lemma BytesRead(T: Table, e: Bytes, b: Bytes, rest: Bytes)
    requires Shape(T) && IsRaw(e, b)
    ensures ReadContent(T, e + rest) == Ok(Parsed(BytesContent(b), rest))
  {
    BinaryReads(e, b, rest);
    assert (e + rest)[1..] == e[1..] + rest;
  }

  lemma ListContent(T: Table, s: Bytes, s1: Bytes, ns: seq<Node>, rest: Bytes)
    requires Shape(T) && s != [] && IsListTag(s[0]) && ReadListSize(s[0], s[1..]) == Ok(Parsed(|ns|, s1))
    requires ReadNodes(T, |ns|, s1) == Ok(Parsed(ns, rest))
    ensures ReadContent(T, s) == Ok(Parsed(Nodes(ns), rest))
  {
  }

  lemma AfterFirst(e: Bytes, h: nat, rest: Bytes)
    requires 0 < h <= |e|
    ensures (e + rest)[0] == e[..h][0] && (e + rest)[1..] == e[..h][1..] + (e[h..] + rest)
  {
  }

  lemma ListReads(T: Table, e: Bytes, h: nat, ns: seq<Node>, rest: Bytes)
    requires Shape(T) && 0 < h <= |e| && ListHead(e[..h], |ns|)
    requires ReadNodes(T, |ns|, e[h..] + rest) == Ok(Parsed(ns, rest))
    ensures ReadContent(T, e + rest) == Ok(Parsed(Nodes(ns), rest))
  {
    HeadReads(e[..h], |ns|, e[h..] + rest);
    AfterFirst(e, h, rest);
    ListContent(T, e + rest, e[h..] + rest, ns, rest);
  }

  lemma ListCut(T: Table, e: Bytes, ns: seq<Node>) returns (h: nat)
    requires Shape(T) && SpellsContent(T, e, Nodes(ns))
    ensures 0 < h <= |e| && ListHead(e[..h], |ns|) && SpellsNodes(T, e[h..], ns)
  {
    h :| 0 < h <= |e| && ListHead(e[..h], |ns|) && SpellsNodes(T, e[h..], ns);
  }

  lemma {:induction false} ContentReads(T: Table, e: Bytes, c: Content, rest: Bytes)
    requires Shape(T) && SpellsContent(T, e, c)
    ensures ReadContent(T, e + rest) == Ok(Parsed(c, rest))
    decreases |e|, 0
  {
    match c {
      case TextContent(t) => TextReads(T, e, t, rest);
      case BytesContent(b) => BytesRead(T, e, b, rest);
      case Nodes(ns) =>
        var h := ListCut(T, e, ns);
        NodesRead(T, e[h..], ns, rest);
        ListReads(T, e, h, ns, rest);
    }
  }

  lemma FirstNode(T: Table, e: Bytes, ns: seq<Node>) returns (cut: nat)
    requires Shape(T) && ns != [] && SpellsNodes(T, e, ns)
    ensures cut <= |e| && SpellsNode(T, e[..cut], ns[0]) && SpellsNodes(T, e[cut..], ns[1..])
  {
    cut :| cut <= |e| && SpellsNode(T, e[..cut], ns[0]) && SpellsNodes(T, e[cut..], ns[1..]);
  }

  /** Reading one node more. */
  lemma NodeThen(T: Table, count: nat, others: nat, s: Bytes, first: Node, rest: Bytes, more: seq<Node>, end: Bytes)
    requires Shape(T) && count == others + 1
    requires DecodeNode(T, s) == Ok(Parsed(first, rest)) && ReadNodes(T, others, rest) == Ok(Parsed(more, end))
    ensures ReadNodes(T, count, s) == Ok(Parsed([first] + more, end))
  {
  }

  lemma TwoPieces(e: Bytes, cut: nat, rest: Bytes)
    requires cut <= |e|
    ensures e + rest == e[..cut] + (e[cut..] + rest)
  {
  }

  lemma NodesThen(T: Table, e: Bytes, cut: nat, first: Node, more: seq<Node>, rest: Bytes)
    requires Shape(T) && cut <= |e|
    requires DecodeNode(T, e[..cut] + (e[cut..] + rest)) == Ok(Parsed(first, e[cut..] + rest))
    requires ReadNodes(T, |more|, e[cut..] + rest) == Ok(Parsed(more, rest))
    ensures ReadNodes(T, |more| + 1, e + rest) == Ok(Parsed([first] + more, rest))
  {
    NodeThen(T, |more| + 1, |more|, e[..cut] + (e[cut..] + rest), first, e[cut..] + rest, more, rest);
    TwoPieces(e, cut, rest);
  }

  /** Nodes spelled by `e` are read from it, whatever follows. */
  ghost predicate NodesReadAs(T: Table, e: Bytes, count: nat, ns: seq<Node>, rest: Bytes)
    requires Shape(T)
  {
    ReadNodes(T, count, e + rest) == Ok(Parsed(ns, rest))
  }

  lemma NoneRead(T: Table, rest: Bytes)
    requires Shape(T)
    ensures NodesReadAs(T, [], 0, [], rest)
  {
    assert [] + rest == rest;
  }

  lemma {:induction false} NodesRead(T: Table, e: Bytes, ns: seq<Node>, rest: Bytes)
    requires Shape(T) && SpellsNodes(T, e, ns)
    ensures NodesReadAs(T, e, |ns|, ns, rest)
    decreases |e|, 3, |ns|
  {
    if ns == [] {
      NoneRead(T, rest);
    } else {
      var cut := FirstNode(T, e, ns);
      var first, more := ns[0], ns[1..];
      NodeReads(T, e[..cut], first, e[cut..] + rest);
      NodesRead(T, e[cut..], more, rest);
      NodesThen(T, e, cut, first, more, rest);
      assert [first] + more == ns;
    }
  }

  /** The size, the tag and the attributes of a node, one after the other. */
  predicate HeadIs(T: Table, s: Bytes, size: nat, tag: Bytes, attrs: Attrs, rest: Bytes)
    requires Shape(T)
  {
    && s != [] && ReadListSize(s[0], s[1..]).Ok? && ReadListSize(s[0], s[1..]).value.value == size
    && var s1 := ReadListSize(s[0], s[1..]).value.rest;
    && ReadString(T, s1).Ok? && ReadString(T, s1).value.value == tag
    && size > 0 && ReadAttrs(T, (size - 1) / 2, ReadString(T, s1).value.rest, []) == Ok(Parsed(attrs, rest))
  }

  /** A node from its head and its content. */
  lemma PartsRead(T: Table, s: Bytes, size: nat, n: Node, s3: Bytes, rest: Bytes)
    requires Shape(T) && HeadIs(T, s, size, n.tag, n.attrs, s3) && n.tag != []
    requires size % 2 == 0 <==> n.content.Some?
    requires if n.content.Some? then ReadContent(T, s3) == Ok(Parsed(n.content.value, rest)) else s3 == rest
    ensures DecodeNode(T, s) == Ok(Parsed(n, rest))
  {
  }

  lemma CutOf(T: Table, e: Bytes, n: Node) returns (a: nat, b: nat, c: nat, pairs: Attrs)
    requires Shape(T) && SpellsNode(T, e, n)
    ensures NodeCut(T, e, n, a, b, c, pairs)
  {
    a, b, c, pairs :| NodeCut(T, e, n, a, b, c, pairs);
  }

  lemma HeadPieces(e: Bytes, a: nat, b: nat, c: nat, s3: Bytes)
    requires 0 < a <= b <= c <= |e|
    ensures var s1 := e[a..b] + (e[b..c] + s3);
            e[..c] + s3 == e[..a] + s1 && (e[..c] + s3)[1..] == e[..a][1..] + s1 && (e[..c] + s3)[0] == e[..a][0]
  {
  }

  /** The head of a node from its pieces. */
  lemma HeadRead(T: Table, e: Bytes, a: nat, b: nat, c: nat, size: nat, tag: Bytes, pairs: Attrs, s3: Bytes)
    requires Shape(T) && 0 < a <= b <= c <= |e| && ListHead(e[..a], size) && size > 0 && (size - 1) / 2 == |pairs|
    requires Spells(T, e[a..b], tag) && SpellsPairs(T, e[b..c], pairs)
    ensures HeadIs(T, e[..c] + s3, size, tag, InsertAll([], pairs), s3)
  {
    var s2 := e[b..c] + s3;
    var s1 := e[a..b] + s2;
    HeadReads(e[..a], size, s1);
    SpelledReads(T, e[a..b], tag, s2);
    PairsRead(T, e[b..c], pairs, [], s3);
    HeadPieces(e, a, b, c, s3);
    HeadFrom(T, e[..c] + s3, size, s1, tag, s2, InsertAll([], pairs), s3, |pairs|);
  }

  lemma HeadFrom(T: Table, s: Bytes, size: nat, s1: Bytes, tag: Bytes, s2: Bytes, attrs: Attrs, s3: Bytes, count: nat)
    requires Shape(T) && s != [] && ReadListSize(s[0], s[1..]) == Ok(Parsed(size, s1)) && size > 0 && (size - 1) / 2 == count
    requires ReadString(T, s1) == Ok(Parsed(tag, s2)) && ReadAttrs(T, count, s2, []) == Ok(Parsed(attrs, s3))
    ensures HeadIs(T, s, size, tag, attrs, s3)
  {
  }

  /** What the grammar derives is read as that node, whatever follows. */
  lemma {:induction false} NodeReads(T: Table, e: Bytes, n: Node, rest: Bytes)
    requires Shape(T) && SpellsNode(T, e, n)
    ensures DecodeNode(T, e + rest) == Ok(Parsed(n, rest))
    decreases |e|, 2
  {
    var a, b, c, pairs := CutOf(T, e, n);
    if n.content.Some? {
      ContentReads(T, e[c..], n.content.value, rest);
    } else {
      assert e[c..] + rest == rest;
    }
    NodeFromCut(T, e, n, a, b, c, pairs, rest);
  }

  lemma CutFacts(T: Table, e: Bytes, n: Node, a: nat, b: nat, c: nat, pairs: Attrs) returns (size: nat)
    requires Shape(T) && NodeCut(T, e, n, a, b, c, pairs)
    ensures 0 < a <= b <= c <= |e| && ListHead(e[..a], size) && size > 0 && (size - 1) / 2 == |pairs|
    ensures size % 2 == 0 <==> n.content.Some?
    ensures Spells(T, e[a..b], n.tag) && SpellsPairs(T, e[b..c], pairs) && n.tag != [] && n.attrs == InsertAll([], pairs)
  {
    size := 1 + 2 * |pairs| + (if n.content.Some? then 1 else 0);
  }

  lemma NodeFromCut(T: Table, e: Bytes, n: Node, a: nat, b: nat, c: nat, pairs: Attrs, rest: Bytes)
    requires Shape(T) && NodeCut(T, e, n, a, b, c, pairs)
    requires if n.content.Some? then ReadContent(T, e[c..] + rest) == Ok(Parsed(n.content.value, rest)) else e[c..] + rest == rest
    ensures DecodeNode(T, e + rest) == Ok(Parsed(n, rest))
  {
    var s3 := e[c..] + rest;
    var size := CutFacts(T, e, n, a, b, c, pairs);
    HeadRead(T, e, a, b, c, size, n.tag, pairs, s3);
    PartsRead(T, e[..c] + s3, size, n, s3, rest);
    TwoPieces(e, c, rest);
  }

  // ----- The grammar derives what is read ------------------------------------------

  lemma HeadDerived(s: Bytes) returns (a: nat)
    requires s != [] && ReadListSize(s[0], s[1..]).Ok?
    ensures var p := ReadListSize(s[0], s[1..]).value;
            0 < a <= |s| && p.rest == s[a..] && ListHead(s[..a], p.value)
  {
    if s[0] == 0 {
      a := 1;
    } else if s[0] == 248 {
      a := 2;
      assert s[1..][1..] == s[2..];
    } else {
      a := 3;
      assert s[1..][1..] == s[2..] && s[2..][1..] == s[3..];
      assert ReadInt(s[1..], 2, 0) == ReadInt(s[2..], 1, s[1] as nat);
    }
  }

  /** The first `n` bytes spell a pair. */
  ghost predicate PairSpelled(T: Table, s: Bytes, pair: Entry<Bytes>, n: nat)
    requires Shape(T)
  {
    n <= |s| && exists a: nat :: a <= n && Spells(T, s[..a], pair.key) && Spells(T, s[a..n], pair.val)
  }

  lemma PairOf(T: Table, s: Bytes, k: Parsed<Bytes>, v: Parsed<Bytes>) returns (n: nat)
    requires Shape(T) && ReadString(T, s) == Ok(k) && ReadString(T, k.rest) == Ok(v)
    ensures PairSpelled(T, s, Entry(k.value, v.value), n) && v.rest == s[n..]
  {
    var a := ReadsSpelled(T, s);
    var b := ReadsSpelled(T, k.rest);
    n := a + b;
    assert k.rest == s[a..] && s[a..][..b] == s[a..n] && s[a..][b..] == s[n..];
  }

  datatype Task = Task(count: nat, s: Bytes, acc: Attrs, p: Parsed<Attrs>)

  /** What is to be read, and what is read. */
  ghost function Tasks(T: Table): iset<Task>
    requires Shape(T)
  {
    iset k: Task | ReadAttrs(T, k.count, k.s, k.acc) == Ok(k.p)
  }

  /** The first pair is taken off. */
  ghost predicate StepTo(T: Table, k: Task, next: Task, pair: Entry<Bytes>, n: nat)
    requires Shape(T)
  {
    && k.count == next.count + 1 && next.p == k.p && next.acc == Insert(k.acc, pair.key, pair.val)
    && PairSpelled(T, k.s, pair, n) && next.s == k.s[n..]
  }

  lemma FirstFound(T: Table, k: Task) returns (next: Task, pair: Entry<Bytes>, n: nat)
    requires Shape(T) && k.count > 0 && k in Tasks(T)
    ensures next in Tasks(T) && StepTo(T, k, next, pair, n)
  {
    var key := ReadString(T, k.s).value;
    var val := ReadString(T, key.rest).value;
    n := PairOf(T, k.s, key, val);
    pair := Entry(key.value, val.value);
    next := Task(k.count - 1, val.rest, Insert(k.acc, key.value, val.value), k.p);
  }

  /** The first `n` bytes spell the pairs, and inserting them gives what was read. */
  ghost predicate PairsFound(T: Table, s: Bytes, acc: Attrs, p: Parsed<Attrs>, pairs: Attrs, n: nat)
    requires Shape(T)
  {
    n <= |s| && p.rest == s[n..] && SpellsPairs(T, s[..n], pairs) && p.value == InsertAll(acc, pairs)
  }

  lemma PairPieces(s: Bytes, a: nat, n: nat, m: nat)
    requires a <= n && n + m <= |s|
    ensures var e := s[..n + m]; e[..a] == s[..a] && e[a..n] == s[a..n] && e[n..] == s[n..][..m]
    ensures s[n..][m..] == s[n + m..]
  {
  }

  lemma SpellsPair(T: Table, e: Bytes, a: nat, n: nat, pair: Entry<Bytes>, more: Attrs)
    requires Shape(T) && a <= n <= |e| && Spells(T, e[..a], pair.key) && Spells(T, e[a..n], pair.val)
    requires SpellsPairs(T, e[n..], more)
    ensures SpellsPairs(T, e, [pair] + more)
  {
    var pairs := [pair] + more;
    assert pairs[0] == pair && pairs[1..] == more;
    assert PairsCut(T, e, pairs, a, n);
  }

  lemma InsertMore(acc: Attrs, pair: Entry<Bytes>, more: Attrs)
    ensures InsertAll(acc, [pair] + more) == InsertAll(Insert(acc, pair.key, pair.val), more)
  {
    var pairs := [pair] + more;
    assert pairs[0] == pair && pairs[1..] == more;
  }

  lemma PairsMore(T: Table, k: Task, next: Task, pair: Entry<Bytes>, n: nat, more: Attrs, m: nat)
    requires Shape(T) && StepTo(T, k, next, pair, n) && PairsFound(T, next.s, next.acc, k.p, more, m)
    ensures PairsFound(T, k.s, k.acc, k.p, [pair] + more, n + m)
  {
    var a: nat :| a <= n && Spells(T, k.s[..a], pair.key) && Spells(T, k.s[a..n], pair.val);
    PairPieces(k.s, a, n, m);
    SpellsPair(T, k.s[..n + m], a, n, pair, more);
    InsertMore(k.acc, pair, more);
  }

  lemma NoPairs(T: Table, s: Bytes, acc: Attrs)
    requires Shape(T)
    ensures PairsFound(T, s, acc, Parsed(acc, s), [], 0)
  {
  }

  /** A task and how it can be solved. */
  datatype Solution = Solution(k: Task, pairs: Attrs, n: nat)

  ghost function Solutions(T: Table): iset<Solution>
    requires Shape(T)
  {
    iset x: Solution | PairsFound(T, x.k.s, x.k.acc, x.k.p, x.pairs, x.n)
  }

  /** Every solution of the next task is one of this task, with the pair in front. */
  ghost predicate Extends(k: Task, next: Task, pair: Entry<Bytes>, first: nat, solved: iset<Solution>) {
    && k.count == next.count + 1
    && forall more, m: nat :: Solution(next, more, m) in solved ==> Solution(k, [pair] + more, first + m) in solved
  }

  /** Tasks are solved by solving the next one, until nothing is to be read. */
  ghost predicate Solvable(tasks: iset<Task>, solved: iset<Solution>) {
    && (forall k :: k in tasks && k.count == 0 ==> Solution(k, [], 0) in solved)
    && (forall k :: k in tasks && k.count > 0 ==>
          exists next, pair, first: nat :: next in tasks && Extends(k, next, pair, first, solved))
  }

  lemma {:induction false} Solve(tasks: iset<Task>, solved: iset<Solution>, k: Task) returns (pairs: Attrs, n: nat)
    requires Solvable(tasks, solved) && k in tasks
    ensures |pairs| == k.count && Solution(k, pairs, n) in solved
    decreases k.count
  {
    if k.count == 0 {
      pairs, n := [], 0;
    } else {
      var next, pair, first: nat :| next in tasks && Extends(k, next, pair, first, solved);
      var more, m := Solve(tasks, solved, next);
      pairs, n := [pair] + more, first + m;
    }
  }

  lemma ReadingIsSolvable(T: Table)
    requires Shape(T)
    ensures Solvable(Tasks(T), Solutions(T))
  {
    forall k | k in Tasks(T) && k.count == 0 ensures Solution(k, [], 0) in Solutions(T) {
      NoPairs(T, k.s, k.acc);
    }
    forall k | k in Tasks(T) && k.count > 0
      ensures exists next, pair, first: nat :: next in Tasks(T) && Extends(k, next, pair, first, Solutions(T))
    {
      var next, pair, first := FirstFound(T, k);
      StepExtends(T, k, next, pair, first);
    }
  }

  lemma SolvedNext(T: Table, k: Task, next: Task, pair: Entry<Bytes>, first: nat, more: Attrs, m: nat)
    requires Shape(T) && StepTo(T, k, next, pair, first) && Solution(next, more, m) in Solutions(T)
    ensures Solution(k, [pair] + more, first + m) in Solutions(T)
  {
    assert PairsFound(T, next.s, next.acc, k.p, more, m);
    PairsMore(T, k, next, pair, first, more, m);
  }

  lemma StepExtends(T: Table, k: Task, next: Task, pair: Entry<Bytes>, first: nat)
    requires Shape(T) && StepTo(T, k, next, pair, first)
    ensures Extends(k, next, pair, first, Solutions(T))
  {
    forall more, m: nat | Solution(next, more, m) in Solutions(T) ensures Solution(k, [pair] + more, first + m) in Solutions(T) {
      SolvedNext(T, k, next, pair, first, more, m);
    }
  }

  lemma PairsDerived(T: Table, k: Task) returns (pairs: Attrs, n: nat)
    requires Shape(T) && k in Tasks(T)
    ensures |pairs| == k.count && PairsFound(T, k.s, k.acc, k.p, pairs, n)
  {
    ReadingIsSolvable(T);
    pairs, n := Solve(Tasks(T), Solutions(T), k);
    assert Solution(k, pairs, n) in Solutions(T);
  }

  /** A content, some nodes or a node is read from `s`, and the grammar derives it from the first `n` bytes. */
  ghost predicate ContentFound(T: Table, s: Bytes, n: nat)
    requires Shape(T)
  {
    && ReadContent(T, s).Ok? && n <= |s| && ReadContent(T, s).value.rest == s[n..]
    && SpellsContent(T, s[..n], ReadContent(T, s).value.value)
  }

  ghost predicate NodesFound(T: Table, count: nat, s: Bytes, n: nat)
    requires Shape(T)
  {
    && ReadNodes(T, count, s).Ok? && n <= |s| && ReadNodes(T, count, s).value.rest == s[n..]
    && |ReadNodes(T, count, s).value.value| == count && SpellsNodes(T, s[..n], ReadNodes(T, count, s).value.value)
  }

  ghost predicate NodeFound(T: Table, s: Bytes, n: nat)
    requires Shape(T)
  {
    && DecodeNode(T, s).Ok? && n <= |s| && DecodeNode(T, s).value.rest == s[n..]
    && SpellsNode(T, s[..n], DecodeNode(T, s).value.value)
  }

  lemma SpellsList(T: Table, e: Bytes, h: nat, ns: seq<Node>)
    requires Shape(T) && 0 < h <= |e| && ListHead(e[..h], |ns|) && SpellsNodes(T, e[h..], ns)
    ensures SpellsContent(T, e, Nodes(ns))
  {
  }

  lemma ListFound(T: Table, s: Bytes, h: nat, count: nat, rest: Bytes, m: nat)
    requires Shape(T) && s != [] && IsListTag(s[0]) && ReadListSize(s[0], s[1..]) == Ok(Parsed(count, rest))
    requires 0 < h <= |s| && rest == s[h..] && ListHead(s[..h], count) && NodesFound(T, count, rest, m)
    ensures ContentFound(T, s, h + m)
  {
    var ns := ReadNodes(T, count, rest).value;
    ListContent(T, s, rest, ns.value, ns.rest);
    CutTwice(s, h, m);
    SpellsList(T, s[..h + m], h, ns.value);
  }

  lemma BytesFound(T: Table, s: Bytes) returns (n: nat)
    requires Shape(T) && s != [] && IsBinaryTag(s[0]) && ReadContent(T, s).Ok?
    ensures ContentFound(T, s, n)
  {
    n := BinaryDerived(s);
  }

  lemma TextFound(T: Table, s: Bytes) returns (n: nat)
    requires Shape(T) && s != [] && !IsListTag(s[0]) && !IsBinaryTag(s[0]) && ReadContent(T, s).Ok?
    ensures ContentFound(T, s, n)
  {
    assert ReadString(T, s) == DecodeString(T, s[0], s[1..]);
    n := ReadsSpelled(T, s);
  }

  lemma ListRead(T: Table, s: Bytes) returns (count: nat, rest: Bytes)
    requires Shape(T) && s != [] && IsListTag(s[0]) && ReadContent(T, s).Ok?
    ensures ReadListSize(s[0], s[1..]) == Ok(Parsed(count, rest)) && ReadNodes(T, count, rest).Ok? && |rest| < |s|
  {
    var size := ReadListSize(s[0], s[1..]).value;
    count, rest := size.value, size.rest;
  }

  lemma ContentThere(T: Table, s: Bytes)
    requires Shape(T) && ReadContent(T, s).Ok?
    ensures s != []
  {
  }

  lemma {:induction false} ContentDerived(T: Table, s: Bytes) returns (n: nat)
    requires Shape(T) && ReadContent(T, s).Ok?
    ensures ContentFound(T, s, n)
    decreases |s|, 0
  {
    ContentThere(T, s);
    if IsListTag(s[0]) {
      var count, rest := ListRead(T, s);
      var h := HeadDerived(s);
      var m := NodesDerived(T, count, rest);
      ListFound(T, s, h, count, rest, m);
      n := h + m;
    } else if IsBinaryTag(s[0]) {
      n := BytesFound(T, s);
    } else {
      n := TextFound(T, s);
    }
  }

  /** Where the nodes after the first one were read from. */
  lemma AfterNode(T: Table, count: nat, s: Bytes) returns (others: nat, rest: Bytes)
    requires Shape(T) && count > 0 && ReadNodes(T, count, s).Ok?
    ensures DecodeNode(T, s).Ok? && rest == DecodeNode(T, s).value.rest && |rest| < |s|
    ensures count == others + 1 && ReadNodes(T, others, rest).Ok?
  {
    others, rest := count - 1, DecodeNode(T, s).value.rest;
  }

  lemma CutTwice(s: Bytes, a: nat, m: nat)
    requires a + m <= |s|
    ensures s[..a + m][..a] == s[..a] && s[..a + m][a..] == s[a..][..m] && s[a..][m..] == s[a + m..]
  {
  }

  lemma SpellsMore(T: Table, e: Bytes, cut: nat, first: Node, more: seq<Node>)
    requires Shape(T) && cut <= |e| && SpellsNode(T, e[..cut], first) && SpellsNodes(T, e[cut..], more)
    ensures SpellsNodes(T, e, [first] + more)
  {
    assert ([first] + more)[1..] == more;
  }

  lemma NodesJoin(T: Table, count: nat, others: nat, s: Bytes, a: nat, rest: Bytes, m: nat)
    requires Shape(T) && NodeFound(T, s, a) && rest == DecodeNode(T, s).value.rest && NodesFound(T, others, rest, m)
    requires count == others + 1
    ensures NodesFound(T, count, s, a + m)
  {
    var first, more := DecodeNode(T, s).value.value, ReadNodes(T, others, rest).value;
    NodeThen(T, count, others, s, first, rest, more.value, more.rest);
    CutTwice(s, a, m);
    SpellsMore(T, s[..a + m], a, first, more.value);
  }

  lemma NoNodes(T: Table, s: Bytes)
    requires Shape(T)
    ensures NodesFound(T, 0, s, 0)
  {
  }

  lemma {:induction false} NodesDerived(T: Table, count: nat, s: Bytes) returns (n: nat)
    requires Shape(T) && ReadNodes(T, count, s).Ok?
    ensures NodesFound(T, count, s, n)
    decreases |s|, 3, count
  {
    if count == 0 {
      NoNodes(T, s);
      n := 0;
    } else {
      var others, rest := AfterNode(T, count, s);
      var a := NodeDerived(T, s);
      var m := NodesDerived(T, others, rest);
      NodesJoin(T, count, others, s, a, rest, m);
      n := a + m;
    }
  }

  /** Where the tag of a node was read from. */
  lemma SizeOf(T: Table, s: Bytes) returns (size: nat, s1: Bytes)
    requires Shape(T) && DecodeNode(T, s).Ok?
    ensures s != [] && ReadListSize(s[0], s[1..]) == Ok(Parsed(size, s1)) && size > 0 && |s1| < |s|
    ensures DecodeNode(T, s) == TaggedNode(T, size, s1)
  {
    size, s1 := ReadListSize(s[0], s[1..]).value.value, ReadListSize(s[0], s[1..]).value.rest;
  }

  /** The size and the tag of a node that was read. */
  lemma HeadOf(T: Table, s: Bytes) returns (size: nat, s1: Bytes, s2: Bytes)
    requires Shape(T) && DecodeNode(T, s).Ok?
    ensures s != [] && ReadListSize(s[0], s[1..]) == Ok(Parsed(size, s1)) && size > 0
    ensures ReadString(T, s1) == Ok(Parsed(DecodeNode(T, s).value.value.tag, s2)) && DecodeNode(T, s).value.value.tag != []
    ensures |s2| < |s1| < |s|
    ensures NodeOf(T, size, DecodeNode(T, s).value.value.tag, s2) == DecodeNode(T, s)
  {
    size, s1 := SizeOf(T, s);
    s2 := TagOf(T, size, s1);
  }

  lemma TagOf(T: Table, size: nat, s1: Bytes) returns (s2: Bytes)
    requires Shape(T) && size > 0 && TaggedNode(T, size, s1).Ok?
    ensures var n := TaggedNode(T, size, s1).value.value;
            && ReadString(T, s1) == Ok(Parsed(n.tag, s2)) && n.tag != [] && |s2| < |s1|
            && NodeOf(T, size, n.tag, s2) == TaggedNode(T, size, s1)
  {
    s2 := ReadString(T, s1).value.rest;
  }

  lemma TailOf(T: Table, size: nat, tag: Bytes, s2: Bytes) returns (s3: Bytes)
    requires Shape(T) && size > 0 && NodeOf(T, size, tag, s2).Ok?
    ensures var n := NodeOf(T, size, tag, s2).value;
            && ReadAttrs(T, (size - 1) / 2, s2, []) == Ok(Parsed(n.value.attrs, s3)) && |s3| <= |s2|
            && (size % 2 == 0 <==> n.value.content.Some?)
            && (if n.value.content.Some? then ReadContent(T, s3) == Ok(Parsed(n.value.content.value, n.rest)) else s3 == n.rest)
  {
    s3 := ReadAttrs(T, (size - 1) / 2, s2, []).value.rest;
  }

  /** What a node was read from, and the readings of its parts. */
  lemma PartsOf(T: Table, s: Bytes) returns (size: nat, s1: Bytes, s2: Bytes, s3: Bytes)
    requires Shape(T) && DecodeNode(T, s).Ok?
    ensures s != [] && ReadListSize(s[0], s[1..]) == Ok(Parsed(size, s1)) && size > 0 && |s1| < |s|
    ensures var n := DecodeNode(T, s).value;
            && ReadString(T, s1) == Ok(Parsed(n.value.tag, s2)) && n.value.tag != [] && |s2| < |s1|
            && ReadAttrs(T, (size - 1) / 2, s2, []) == Ok(Parsed(n.value.attrs, s3)) && |s3| <= |s2|
            && (size % 2 == 0 <==> n.value.content.Some?)
            && (if n.value.content.Some? then ReadContent(T, s3) == Ok(Parsed(n.value.content.value, n.rest)) else s3 == n.rest)
  {
    size, s1, s2 := HeadOf(T, s);
    s3 := TailOf(T, size, DecodeNode(T, s).value.value.tag, s2);
  }

  /** The end of a node: its content, if it has one. */
  ghost predicate EndDerived(T: Table, s: Bytes, l: nat, content: Option<Content>)
    requires Shape(T)
  {
    l <= |s| && if content.Some? then SpellsContent(T, s[..l], content.value) else l == 0
  }

  lemma PiecesOf(s: Bytes, a: nat, k: nat, m: nat, l: nat)
    requires a + k + m + l <= |s|
    ensures var e, b, c := s[..a + k + m + l], a + k, a + k + m;
            && e[..a] == s[..a] && e[a..b] == s[a..][..k] && e[b..c] == s[b..][..m] && e[c..] == s[c..][..l]
            && s[c..][l..] == s[c + l..]
  {
  }

  /** A node from the pieces of a prefix of `s`. */
  lemma CutNode(T: Table, s: Bytes, n: Node, a: nat, k: nat, m: nat, pairs: Attrs, l: nat)
    requires Shape(T) && 0 < a && a + k + m + l <= |s|
    requires ListHead(s[..a], 1 + 2 * |pairs| + (if n.content.Some? then 1 else 0))
    requires Spells(T, s[a..][..k], n.tag) && n.tag != []
    requires SpellsPairs(T, s[a + k..][..m], pairs) && n.attrs == InsertAll([], pairs)
    requires EndDerived(T, s[a + k + m..], l, n.content)
    ensures SpellsNode(T, s[..a + k + m + l], n)
  {
    PiecesOf(s, a, k, m, l);
    assert NodeCut(T, s[..a + k + m + l], n, a, a + k, a + k + m, pairs);
  }

  lemma SizeIs(size: nat, pairs: Attrs, content: Option<Content>)
    requires size > 0 && |pairs| == (size - 1) / 2 && (size % 2 == 0 <==> content.Some?)
    ensures size == 1 + 2 * |pairs| + (if content.Some? then 1 else 0)
  {
  }

  /** Whatever node is read, the grammar derives it from exactly the bytes that were read. */
  lemma {:induction false} NodeDerived(T: Table, s: Bytes) returns (n: nat)
    requires Shape(T) && DecodeNode(T, s).Ok?
    ensures NodeFound(T, s, n)
    decreases |s|, 2
  {
    var size, s1, s2, s3 := PartsOf(T, s);
    var l := 0;
    if DecodeNode(T, s).value.value.content.Some? {
      l := ContentDerived(T, s3);
    }
    n := NodeFromParts(T, s, DecodeNode(T, s).value, size, s1, s2, s3, l);
  }

  /** The pieces of the head of a node that was read. */
  lemma HeadFound(T: Table, s: Bytes, size: nat, s1: Bytes, n: Node, s2: Bytes, s3: Bytes)
    returns (a: nat, k: nat, m: nat, pairs: Attrs)
    requires Shape(T) && s != [] && ReadListSize(s[0], s[1..]) == Ok(Parsed(size, s1)) && size > 0
    requires ReadString(T, s1) == Ok(Parsed(n.tag, s2))
    requires ReadAttrs(T, (size - 1) / 2, s2, []) == Ok(Parsed(n.attrs, s3))
    ensures 0 < a && a + k + m <= |s| && ListHead(s[..a], size) && s3 == s[a + k + m..]
    ensures Spells(T, s[a..][..k], n.tag)
    ensures |pairs| == (size - 1) / 2 && SpellsPairs(T, s[a + k..][..m], pairs) && n.attrs == InsertAll([], pairs)
  {
    a := HeadDerived(s);
    k := ReadsSpelled(T, s1);
    pairs, m := PairsDerived(T, Task((size - 1) / 2, s2, [], Parsed(n.attrs, s3)));
    assert s1 == s[a..] && s2 == s[a + k..];
  }

  /** A node from its head and the end of it. */
  lemma NodeFromEnd(T: Table, s: Bytes, n: Node, size: nat, a: nat, k: nat, m: nat, pairs: Attrs, l: nat) returns (e: nat)
    requires Shape(T) && 0 < a && a + k + m <= |s| && ListHead(s[..a], size) && size > 0 && |pairs| == (size - 1) / 2
    requires Spells(T, s[a..][..k], n.tag) && n.tag != []
    requires SpellsPairs(T, s[a + k..][..m], pairs) && n.attrs == InsertAll([], pairs)
    requires (size % 2 == 0 <==> n.content.Some?) && EndDerived(T, s[a + k + m..], l, n.content)
    ensures e <= |s| && s[e..] == s[a + k + m..][l..] && SpellsNode(T, s[..e], n)
  {
    SizeIs(size, pairs, n.content);
    e := a + k + m + l;
    PiecesOf(s, a, k, m, l);
    CutNode(T, s, n, a, k, m, pairs, l);
  }

  lemma NodeFromParts(T: Table, s: Bytes, p: Parsed<Node>, size: nat, s1: Bytes, s2: Bytes, s3: Bytes, l: nat)
    returns (k: nat)
    requires Shape(T) && s != [] && DecodeNode(T, s) == Ok(p)
    requires ReadListSize(s[0], s[1..]) == Ok(Parsed(size, s1)) && size > 0
    requires ReadString(T, s1) == Ok(Parsed(p.value.tag, s2)) && p.value.tag != []
    requires ReadAttrs(T, (size - 1) / 2, s2, []) == Ok(Parsed(p.value.attrs, s3))
    requires size % 2 == 0 <==> p.value.content.Some?
    requires if p.value.content.Some? then
               ContentFound(T, s3, l) && ReadContent(T, s3) == Ok(Parsed(p.value.content.value, p.rest))
             else l == 0 && s3 == p.rest
    ensures NodeFound(T, s, k)
  {
    var a, tag, m, pairs := HeadFound(T, s, size, s1, p.value, s2, s3);
    assert EndDerived(T, s3, l, p.value.content) && p.rest == s3[l..];
    k := NodeFromEnd(T, s, p.value, size, a, tag, m, pairs, l);
  }

  /** The reader of nodes accepts exactly what the grammar derives, with that node, and leaves the rest. */
  lemma NodeExactly(T: Table, s: Bytes, n: Node, rest: Bytes)
    requires Shape(T)
    ensures DecodeNode(T, s) == Ok(Parsed(n, rest)) <==> exists e :: s == e + rest && SpellsNode(T, e, n)
  {
    if DecodeNode(T, s) == Ok(Parsed(n, rest)) {
      var k := NodeDerived(T, s);
      assert s == s[..k] + rest;
    }
    if e :| s == e + rest && SpellsNode(T, e, n) {
      NodeReads(T, e, n, rest);
    }
  }

  // ----- Frames and writing --------------------------------------------------------

  /** The bytes that a node is read from: those after the flags, inflated if bit 1 of the flags is set. */
  function Body(inflate: Bytes -> Option<Bytes>, frame: Bytes): Option<Bytes> {
    if frame == [] then None
    else if frame[0] % 4 >= 2 then inflate(frame[1..])
    else Some(frame[1..])
  }

  lemma BodyRead(T: Table, inflate: Bytes -> Option<Bytes>, frame: Bytes, n: Node)
    requires Shape(T)
    ensures DecodeFrame(T, inflate, frame) == Ok(n)
       <==> Body(inflate, frame).Some? && DecodeNode(T, Body(inflate, frame).value).Ok?
            && DecodeNode(T, Body(inflate, frame).value).value.value == n
  {
    if frame != [] {
      assert frame[0] / 2 % 2 == 1 <==> frame[0] % 4 >= 2;
    }
  }

  /** The body begins with what spells the node. */
  ghost predicate Begins(T: Table, body: Bytes, n: Node)
    requires Shape(T)
  {
    exists k: nat :: k <= |body| && SpellsNode(T, body[..k], n)
  }

  lemma ReadBegins(T: Table, body: Bytes)
    requires Shape(T) && DecodeNode(T, body).Ok?
    ensures Begins(T, body, DecodeNode(T, body).value.value)
  {
    var k := NodeDerived(T, body);
  }

  lemma BeginsRead(T: Table, body: Bytes, n: Node)
    requires Shape(T) && Begins(T, body, n)
    ensures DecodeNode(T, body).Ok? && DecodeNode(T, body).value.value == n
  {
    var k: nat :| k <= |body| && SpellsNode(T, body[..k], n);
    NodeReads(T, body[..k], n, body[k..]);
    assert body[..k] + body[k..] == body;
  }

  lemma BeginsIff(T: Table, body: Bytes, n: Node)
    requires Shape(T)
    ensures DecodeNode(T, body).Ok? && DecodeNode(T, body).value.value == n <==> Begins(T, body, n)
  {
    if DecodeNode(T, body).Ok? {
      ReadBegins(T, body);
    }
    if Begins(T, body, n) {
      BeginsRead(T, body, n);
    }
  }

  /** A frame is read as a node if and only if its body begins with what spells the node. */
  lemma FrameExactly(T: Table, inflate: Bytes -> Option<Bytes>, frame: Bytes, n: Node)
    requires Shape(T)
    ensures DecodeFrame(T, inflate, frame) == Ok(n)
       <==> Body(inflate, frame).Some? && Begins(T, Body(inflate, frame).value, n)
  {
    BodyRead(T, inflate, frame, n);
    if Body(inflate, frame).Some? {
      BeginsIff(T, Body(inflate, frame).value, n);
    }
  }

  /** The shortest size is written, and a list has fewer than 2^16 elements. */
  lemma HeadWritten(size: nat)
    ensures ListHeader(size).Ok? <==> size < 0x1_0000
    ensures ListHeader(size).Ok? ==>
              && ListHead(ListHeader(size).value, size)
              && |ListHeader(size).value| == (if size == 0 then 1 else if size < 256 then 2 else 3)
  {
  }

  /** What the writer makes of a readable tree is a zero byte, and then what the grammar derives the tree that comes back from. */
  lemma FrameWritten(T: Table, n: Node)
    requires Shape(T) && WellFormed(n) && Readable(T, n) && EncodeFrame(T, n).Ok?
    ensures var f := EncodeFrame(T, n).value; f != [] && f[0] == 0 && SpellsNode(T, f[1..], Norm(T, n))
  {
    var e := EncodeNode(T, n).value;
    NodeRead(T, n, []);
    assert e + [] == e && EncodeFrame(T, n).value[1..] == e;
    var k := NodeDerived(T, e);
    assert e[..k] == e;
  }
}
