/**
 The index from dotted configuration paths to source lines
 (internal/config/validate.go): built by walking a decoded YAML tree, searched by
 dropping trailing segments of a path.
 */
module LineIndex {
  import opened Wrappers

  // ----- YAML trees -----

  datatype Kind = Document | Mapping | Sequence | Scalar | Alias

  /** A mapping's content alternates key, value, key, value. */
  datatype Node = Node(kind: Kind, value: string, line: int, content: seq<Node>)

  // ----- Paths as strings -----

  function Digit(d: nat): char
    requires d < 10
  {
    '0' + d as char
  }

  /** %d of a non-negative number */
  function Decimal(n: nat): (s: string)
    ensures s != []
    ensures '.' !in s && '[' !in s && ']' !in s
  {
    if n < 10 then [Digit(n)] else Decimal(n / 10) + [Digit(n % 10)]
  }

  lemma {:induction false} DecimalIsInjective(m: nat, n: nat)
    requires Decimal(m) == Decimal(n)
    ensures m == n
  {
    var a, b := Decimal(m), Decimal(n);
    assert a[|a| - 1] == Digit(m % 10) && b[|b| - 1] == Digit(n % 10);
    if m >= 10 && n >= 10 {
      assert Decimal(m / 10) == a[..|a| - 1] == b[..|b| - 1] == Decimal(n / 10);
      DecimalIsInjective(m / 10, n / 10);
    }
  }

  /** The number that a sequence of digits stands for. */
  function ValueOf(s: string): int {
    if s == "" then 0 else 10 * ValueOf(s[..|s| - 1]) + (s[|s| - 1] as int - '0' as int)
  }

  /** A position is printed as the digits that stand for it, without leading zeros. */
  lemma {:induction false} DecimalReadsBack(n: nat)
    ensures ValueOf(Decimal(n)) == n && (forall c :: c in Decimal(n) ==> '0' <= c <= '9')
    ensures Decimal(n)[0] == '0' ==> n == 0 && Decimal(n) == "0"
  {
    if n < 10 {
      assert ValueOf("") == 0 && Decimal(n)[..0] == "";
    } else {
      DecimalReadsBack(n / 10);
      assert Decimal(n)[..|Decimal(n)| - 1] == Decimal(n / 10);
    }
  }

  function Child(prefix: string, key: string): (path: string)
    ensures prefix != "" ==> '.' in path
  {
    if prefix != "" then
      var path := prefix + "." + key;
      assert path[|prefix|] == '.';
      path
    else key
  }

  function Element(prefix: string, i: nat): string {
    prefix + "[" + Decimal(i) + "]"
  }

  // ----- What indexNode writes -----

  type Paths = map<string, int>

  /** The index after the content of `node`, found at path `prefix`, is added to `paths`. */
  function Indexed(paths: Paths, prefix: string, node: Node): Paths
    decreases node, 1, 0
  {
    match node.kind
    case Mapping => IndexedPairs(paths, prefix, node, 0)
    case Sequence => IndexedElements(paths, prefix, node, 0)
    case _ => paths
  }

  function IndexedPairs(paths: Paths, prefix: string, node: Node, i: nat): Paths
    decreases node, 0, |node.content| - i
  {
    if i + 1 >= |node.content| then paths
    else
      var path := Child(prefix, node.content[i].value);
      IndexedPairs(Indexed(paths[path := node.content[i].line], path, node.content[i + 1]), prefix, node, i + 2)
  }

  function IndexedElements(paths: Paths, prefix: string, node: Node, i: nat): Paths
    decreases node, 0, |node.content| - i
  {
    if i >= |node.content| then paths
    else
      var path := Element(prefix, i);
      IndexedElements(Indexed(paths[path := node.content[i].line], path, node.content[i]), prefix, node, i + 1)
  }

  // ----- What lookup finds -----

  /** The strings lookup may try: the path, its prefixes that end before a dot, and "". */
  predicate IsAncestor(a: string, path: string) {
    a == path || a == "" || (a < path && path[|a|] == '.')
  }

  lemma AncestorsExactly(a: string, path: string)
    ensures IsAncestor(a, path) <==> a == path || a == "" || exists rest :: path == a + "." + rest
  {
    if a < path && path[|a|] == '.' {
      assert path == a + "." + path[|a| + 1..];
    }
    if rest :| path == a + "." + rest {
      assert path[|a|] == '.' && a < path;
    }
  }

  /** The line of the longest indexed ancestor of `path`, or 0 when there is none. */
  ghost predicate IsBestLine(paths: Paths, path: string, line: int) {
    || (exists a :: IsBestAncestor(paths, path, a) && line == paths[a])
    || (line == 0 && forall a :: IsAncestor(a, path) ==> a !in paths)
  }

  ghost predicate IsBestAncestor(paths: Paths, path: string, a: string) {
    a in paths && IsAncestor(a, path) && forall b :: b in paths && IsAncestor(b, path) ==> |b| <= |a|
  }

  lemma BestLineIsUnique(paths: Paths, path: string, line: int, line': int)
    requires IsBestLine(paths, path, line) && IsBestLine(paths, path, line')
    ensures line == line'
  {
    if a, b :| IsBestAncestor(paths, path, a) && IsBestAncestor(paths, path, b) &&
               line == paths[a] && line' == paths[b] {
      assert a == path[..|a|] == b;
    }
  }

  method LastDot(path: string) returns (idx: int)
    ensures -1 <= idx < |path|
    ensures idx >= 0 ==> path[idx] == '.'
    ensures forall i :: idx < i < |path| ==> path[i] != '.'
  {
    idx := |path| - 1;
    while idx >= 0 && path[idx] != '.'
      invariant -1 <= idx < |path|
      invariant forall i :: idx < i < |path| ==> path[i] != '.'
    {
      idx := idx - 1;
    }
  }

  /** Cutting `longer` at its last dot skips no ancestor of `path`. */
  lemma NextAncestor(path: string, longer: string, idx: int, b: string)
    requires IsAncestor(longer, path) && IsAncestor(b, path) && |b| < |longer|
    requires -1 <= idx < |longer| && (idx >= 0 ==> longer[idx] == '.')
    requires forall i :: idx < i < |longer| ==> longer[i] != '.'
    ensures var rest := if idx < 0 then "" else longer[..idx];
            IsAncestor(rest, path) && |b| <= |rest| && (b == rest || |b| < |rest|)
  {
    assert longer <= path && b <= path;
    if b != "" {
      assert longer[|b|] == path[|b|];
    }
  }

  class Index {
    const file: string
    var paths: Paths

    constructor (file: string)
      ensures paths == map[] && this.file == file
    {
      this.file, paths := file, map[];
    }

    /** buildLineIndex; `root` is None for a nil node. */
    constructor Build(file: string, root: Option<Node>)
      ensures this.file == file
      ensures paths == PathsOf(root)
    {
      this.file, paths := file, map[];
      new;
      if root.Some? {
        var doc := root.value;
        if doc.kind == Document && |doc.content| > 0 {
          doc := doc.content[0];
        }
        IndexNode("", doc);
      }
    }

    method IndexNode(prefix: string, node: Node)
      modifies this
      ensures paths == Indexed(old(paths), prefix, node)
      decreases node
    {
      match node.kind
      case Mapping =>
        var i := 0;
        while i + 1 < |node.content|
          invariant 0 <= i
          invariant Indexed(old(paths), prefix, node) == IndexedPairs(paths, prefix, node, i)
        {
          var path := node.content[i].value;
          if prefix != "" {
            path := prefix + "." + node.content[i].value;
          }
          paths := paths[path := node.content[i].line];
          IndexNode(path, node.content[i + 1]);
          i := i + 2;
        }
      case Sequence =>
        for i := 0 to |node.content|
          invariant Indexed(old(paths), prefix, node) == IndexedElements(paths, prefix, node, i)
        {
          var path := Element(prefix, i);
          paths := paths[path := node.content[i].line];
          IndexNode(path, node.content[i]);
        }
      case _ =>
    }

    /** Terminates on every path, and answers with its longest indexed ancestor. */
    method Lookup(path: string) returns (line: int)
      ensures IsBestLine(paths, path, line)
    {
      if path in paths {
        assert IsBestAncestor(paths, path, path);
        return paths[path];
      }
      var rest := path;
      while rest != ""
        invariant IsAncestor(rest, path) && rest !in paths
        invariant forall b :: b in paths && IsAncestor(b, path) ==> |b| < |rest|
        decreases |rest|
      {
        var idx := LastDot(rest);
        ghost var longer := rest;
        rest := if idx < 0 then "" else rest[..idx];
        forall b | b in paths && IsAncestor(b, path) ensures |b| <= |rest| && (b == rest || |b| < |rest|) {
          NextAncestor(path, longer, idx, b);
        }
        if rest in paths {
          assert IsBestAncestor(paths, path, rest);
          return paths[rest];
        }
      }
      return 0;
    }
  }

  function PathsOf(root: Option<Node>): Paths {
    match root
    case None => map[]
    case Some(doc) =>
      if doc.kind == Document && |doc.content| > 0 then Indexed(map[], "", doc.content[0])
      else Indexed(map[], "", doc)
  }

  // ----- Addresses: where a node is in the tree -----

  datatype Step = Key(key: string) | At(index: nat)

  predicate Plain(key: string) {
    key != "" && '.' !in key && '[' !in key && ']' !in key
  }

  ghost predicate PlainAddress(addr: seq<Step>) {
    forall i :: 0 <= i < |addr| && addr[i].Key? ==> Plain(addr[i].key)
  }

  function Extend(prefix: string, step: Step): string {
    match step
    case Key(key) => Child(prefix, key)
    case At(i) => Element(prefix, i)
  }

  /** The dotted path of an address. */
  function Render(addr: seq<Step>): string {
    if addr == [] then "" else Extend(Render(addr[..|addr| - 1]), addr[|addr| - 1])
  }

  /** Every mapping of the tree has plain keys, all different. */
  ghost predicate WellFormed(node: Node) {
    && (node.kind == Mapping ==>
          forall i :: IsPair(node, i) ==>
            Plain(node.content[i].value) &&
            forall j :: i < j && IsPair(node, j) ==> node.content[i].value != node.content[j].value)
    && forall i :: 0 <= i < |node.content| ==> WellFormed(node.content[i])
  }

  predicate IsPair(node: Node, i: int) {
    0 <= i && i % 2 == 0 && i + 1 < |node.content|
  }

  /** The child at content position `i`, the step that leads to it and the line recorded for it. */
  datatype Entry = Entry(step: Step, child: Node, line: int)

  predicate HasEntry(node: Node, i: nat) {
    (node.kind == Mapping && IsPair(node, i)) || (node.kind == Sequence && i < |node.content|)
  }

  function EntryAt(node: Node, i: nat): Entry
    requires HasEntry(node, i)
  {
    if node.kind == Mapping then Entry(Key(node.content[i].value), node.content[i + 1], node.content[i].line)
    else Entry(At(i), node.content[i], node.content[i].line)
  }

  /** `addr` leads from `node`, entered at or after position `from`, to a node on `line`. */
  ghost predicate LineAt(node: Node, from: nat, addr: seq<Step>, line: int)
    decreases |addr|, 1
  {
    addr != [] && exists i :: from <= i && HasEntry(node, i) && LineVia(EntryAt(node, i), addr, line)
  }

  ghost predicate LineVia(entry: Entry, addr: seq<Step>, line: int)
    requires addr != []
    decreases |addr|, 0
  {
    addr[0] == entry.step && (if |addr| == 1 then line == entry.line else LineAt(entry.child, 0, addr[1..], line))
  }

  /** The pair at content position `i` has this key, and the rest of the address leads on from its value. */
  ghost predicate PairLeadsTo(node: Node, i: nat, key: string, rest: seq<Step>, line: int) {
    && i % 2 == 0 && i + 1 < |node.content| && node.content[i].value == key
    && if rest == [] then line == node.content[i].line else LineAt(node.content[i + 1], 0, rest, line)
  }

  /** A key leads to the value of a pair with that key, on the key's line; a longer address goes on from there. */
  lemma KeyLeadsExactly(node: Node, key: string, rest: seq<Step>, line: int)
    ensures LineAt(node, 0, [Key(key)] + rest, line) <==>
      node.kind == Mapping && exists i: nat :: PairLeadsTo(node, i, key, rest, line)
  {
    var addr := [Key(key)] + rest;
    assert addr[0] == Key(key) && addr[1..] == rest;
    if LineAt(node, 0, addr, line) {
      var i: nat :| HasEntry(node, i) && LineVia(EntryAt(node, i), addr, line);
      assert PairLeadsTo(node, i, key, rest, line);
    }
    if node.kind == Mapping {
      if i: nat :| PairLeadsTo(node, i, key, rest, line) {
        assert HasEntry(node, i) && LineVia(EntryAt(node, i), addr, line);
      }
    }
  }

  /** A position leads to the element there, on its line. */
  lemma PositionLeadsExactly(node: Node, i: nat, rest: seq<Step>, line: int)
    ensures LineAt(node, 0, [At(i)] + rest, line) <==>
      && node.kind == Sequence && i < |node.content|
      && if rest == [] then line == node.content[i].line else LineAt(node.content[i], 0, rest, line)
  {
    var addr := [At(i)] + rest;
    assert addr[0] == At(i) && addr[1..] == rest;
    if node.kind == Sequence && i < |node.content| {
      assert HasEntry(node, i);
    }
  }

  /** Keys are joined by dots, positions stand in brackets. */
  lemma RenderedPaths(addr: seq<Step>, key: string, i: nat)
    ensures Render(addr + [At(i)]) == Render(addr) + "[" + Decimal(i) + "]"
    ensures Render(addr + [Key(key)]) == if Render(addr) == "" then key else Render(addr) + "." + key
    ensures Render([]) == ""
  {
    RenderStep(addr, At(i));
    RenderStep(addr, Key(key));
  }

  // ----- Distinct addresses have distinct paths -----

  function LastIndex(s: string, c: char): int {
    if s == "" then -1 else if s[|s| - 1] == c then |s| - 1 else LastIndex(s[..|s| - 1], c)
  }

  lemma {:induction false} LastIndexBefore(x: string, k: string, c: char)
    requires c !in k
    ensures LastIndex(x + [c] + k, c) == |x|
  {
    if k != "" {
      assert (x + [c] + k)[..|x + [c] + k| - 1] == x + [c] + k[..|k| - 1];
      LastIndexBefore(x, k[..|k| - 1], c);
    } else {
      assert x + [c] + k == x + [c];
    }
  }

  lemma SplitAtLast(x: string, k: string, y: string, m: string, c: char)
    requires x + [c] + k == y + [c] + m && c !in k && c !in m
    ensures x == y && k == m
  {
    LastIndexBefore(x, k, c);
    LastIndexBefore(y, m, c);
    var s := x + [c] + k;
    assert x == s[..|x|] == y && k == s[|x| + 1..] == m;
  }

  lemma RenderNonEmpty(addr: seq<Step>)
    requires PlainAddress(addr)
    ensures Render(addr) == "" <==> addr == []
    ensures addr != [] ==> (Render(addr)[|Render(addr)| - 1] == ']' <==> addr[|addr| - 1].At?)
  {
  }

  lemma {:induction false} RenderIsInjective(a: seq<Step>, b: seq<Step>)
    requires PlainAddress(a) && PlainAddress(b) && Render(a) == Render(b)
    ensures a == b
  {
    RenderNonEmpty(a);
    RenderNonEmpty(b);
    if a != [] {
      var a', b' := a[..|a| - 1], b[..|b| - 1];
      RenderNonEmpty(a');
      RenderNonEmpty(b');
      match a[|a| - 1] {
        case At(i) =>
          var j := b[|b| - 1].index;
          assert Render(a) == Render(a') + ['['] + (Decimal(i) + "]");
          assert Render(b) == Render(b') + ['['] + (Decimal(j) + "]");
          SplitAtLast(Render(a'), Decimal(i) + "]", Render(b'), Decimal(j) + "]", '[');
          assert Decimal(i) == (Decimal(i) + "]")[..|Decimal(i) + "]"| - 1] == Decimal(j);
          DecimalIsInjective(i, j);
        case Key(k) =>
          var m := b[|b| - 1].key;
          if a' != [] && b' != [] {
            SplitAtLast(Render(a'), k, Render(b'), m, '.');
          }
      }
      RenderIsInjective(a', b');
      assert a == a' + [a[|a| - 1]] && b == b' + [b[|b| - 1]];
    }
  }

  lemma {:induction false} LineAtIsPlain(node: Node, from: nat, addr: seq<Step>, line: int)
    requires WellFormed(node) && LineAt(node, from, addr, line)
    ensures PlainAddress(addr)
  {
    var i: nat :| from <= i && HasEntry(node, i) && LineVia(EntryAt(node, i), addr, line);
    if |addr| > 1 {
      LineAtIsPlain(EntryAt(node, i).child, 0, addr[1..], line);
    }
    assert addr == [addr[0]] + addr[1..];
  }

  // ----- The index holds exactly the lines of the tree -----

  function IndexedFrom(paths: Paths, prefix: string, node: Node, from: nat): Paths {
    match node.kind
    case Mapping => IndexedPairs(paths, prefix, node, from)
    case Sequence => IndexedElements(paths, prefix, node, from)
    case _ => paths
  }

  lemma RenderStep(p: seq<Step>, step: Step)
    ensures Render(p + [step]) == Extend(Render(p), step)
  {
    assert (p + [step])[..|p|] == p;
  }

  lemma LineAtLater(node: Node, from: nat, later: nat, addr: seq<Step>, line: int)
    requires from <= later
    ensures LineAt(node, later, addr, line) ==> LineAt(node, from, addr, line)
  {
  }

  function Next(node: Node, i: nat): nat {
    if node.kind == Mapping then i + 2 else i + 1
  }

  lemma LineAtEntry(node: Node, from: nat, addr: seq<Step>, line: int)
    requires HasEntry(node, from)
    ensures LineAt(node, from, [EntryAt(node, from).step], EntryAt(node, from).line)
    ensures LineAt(EntryAt(node, from).child, 0, addr, line) ==>
      LineAt(node, from, [EntryAt(node, from).step] + addr, line)
  {
    var e := EntryAt(node, from);
    assert ([e.step] + addr)[1..] == addr;
    assert LineVia(e, [e.step], e.line);
    assert LineAt(e.child, 0, addr, line) ==> LineVia(e, [e.step] + addr, line);
  }

  lemma IndexedStep(paths: Paths, p: seq<Step>, node: Node, from: nat)
    requires HasEntry(node, from)
    ensures var e := EntryAt(node, from);
            var path := Render(p + [e.step]);
            IndexedFrom(paths, Render(p), node, from) ==
              IndexedFrom(Indexed(paths[path := e.line], path, e.child), Render(p), node, Next(node, from))
  {
    RenderStep(p, EntryAt(node, from).step);
  }

  lemma IndexedEnds(paths: Paths, prefix: string, node: Node, from: nat)
    requires from % 2 == 0 || node.kind != Mapping
    ensures !HasEntry(node, from) ==> IndexedFrom(paths, prefix, node, from) == paths
    ensures IndexedFrom(paths, prefix, node, 0) == Indexed(paths, prefix, node)
  {
  }

  /** A key once in the index stays in it. */
  lemma {:induction false} IndexedKeeps(paths: Paths, prefix: string, node: Node, from: nat)
    ensures paths.Keys <= IndexedFrom(paths, prefix, node, from).Keys
    decreases node, |node.content| - from
  {
    if node.kind == Mapping && from + 1 < |node.content| {
      var path, child := Child(prefix, node.content[from].value), node.content[from + 1];
      var paths1 := paths[path := node.content[from].line];
      IndexedKeeps(paths1, path, child, 0);
      IndexedKeeps(Indexed(paths1, path, child), prefix, node, from + 2);
    } else if node.kind == Sequence && from < |node.content| {
      var path, child := Element(prefix, from), node.content[from];
      var paths1 := paths[path := child.line];
      IndexedKeeps(paths1, path, child, 0);
      IndexedKeeps(Indexed(paths1, path, child), prefix, node, from + 1);
    }
  }

  /** The path of every address is indexed. */
  lemma {:induction false} AddressIsIndexed(paths: Paths, p: seq<Step>, node: Node, from: nat, addr: seq<Step>,
                                            line: int)
    requires LineAt(node, from, addr, line) && (from % 2 == 0 || node.kind != Mapping)
    ensures Render(p + addr) in IndexedFrom(paths, Render(p), node, from)
    decreases node, |node.content| - from
  {
    hide Render, Indexed, IndexedFrom, LineAt;
    var here := EntersHere(node, from, addr, line);
    var e := EntryAt(node, from);
    var path := Render(p + [e.step]);
    if !here {
      AddressIsIndexed(Indexed(paths[path := e.line], path, e.child), p, node, Next(node, from), addr, line);
      IndexedStep(paths, p, node, from);
    } else {
      EntryIsIndexed(paths, p, node, from);
      if |addr| > 1 {
        AddressIsIndexed(paths[path := e.line], p + [e.step], e.child, 0, addr[1..], line);
        assert p + [e.step] + addr[1..] == p + addr;
      } else {
        assert addr == [e.step];
      }
    }
  }

  /** An address leads through the entry at `from` or through a later one. */
  lemma EntersHere(node: Node, from: nat, addr: seq<Step>, line: int) returns (here: bool)
    requires LineAt(node, from, addr, line) && (from % 2 == 0 || node.kind != Mapping)
    ensures HasEntry(node, from) && addr != []
    ensures !here ==> LineAt(node, Next(node, from), addr, line)
    ensures here ==>
      addr[0] == EntryAt(node, from).step && (|addr| > 1 ==> LineAt(EntryAt(node, from).child, 0, addr[1..], line))
  {
    var i: nat :| from <= i && HasEntry(node, i) && LineVia(EntryAt(node, i), addr, line);
    here := i == from;
  }

  /** What is indexed through the entry at `from`, its own path included, stays indexed. */
  lemma EntryIsIndexed(paths: Paths, p: seq<Step>, node: Node, from: nat)
    requires HasEntry(node, from)
    ensures var e := EntryAt(node, from); var path := Render(p + [e.step]);
      && path in IndexedFrom(paths, Render(p), node, from)
      && IndexedFrom(paths[path := e.line], path, e.child, 0).Keys <= IndexedFrom(paths, Render(p), node, from).Keys
  {
    hide Render, Indexed, IndexedFrom, LineAt;
    var e := EntryAt(node, from);
    var path := Render(p + [e.step]);
    var paths1 := paths[path := e.line];
    IndexedStep(paths, p, node, from);
    IndexedEnds(paths1, path, e.child, 0);
    IndexedKeeps(paths1, path, e.child, 0);
    IndexedKeeps(Indexed(paths1, path, e.child), Render(p), node, Next(node, from));
  }

  /** `line` is that of an address which leads on from position `from` of the node at `p` and renders as `s`. */
  ghost predicate IsLineOf(p: seq<Step>, node: Node, from: nat, s: string, line: int) {
    exists a :: LineAt(node, from, a, line) && s == Render(p + a)
  }

  /** `q` holds at `s` what `p` does. */
  ghost predicate SameAt(p: Paths, q: Paths, s: string) {
    (s in p <==> s in q) && (s in p ==> p[s] == q[s])
  }

  /** Indexing changes a path only to the line of an address that renders as it. */
  lemma {:induction false} HeldLineIsAddressed(paths: Paths, p: seq<Step>, node: Node, from: nat, s: string)
    requires from % 2 == 0 || node.kind != Mapping
    ensures var indexed := IndexedFrom(paths, Render(p), node, from);
      SameAt(paths, indexed, s) || (s in indexed && IsLineOf(p, node, from, s, indexed[s]))
    decreases node, |node.content| - from
  {
    hide Render, Indexed, IndexedFrom, LineAt;
    IndexedEnds(paths, Render(p), node, from);
    if HasEntry(node, from) {
      var e, next := EntryAt(node, from), Next(node, from);
      var path := Render(p + [e.step]);
      var paths1 := paths[path := e.line];
      var paths2 := Indexed(paths1, path, e.child);
      HeldLineIsAddressed(paths1, p + [e.step], e.child, 0, s);
      IndexedEnds(paths1, path, e.child, 0);
      HeldLineIsAddressed(paths2, p, node, next, s);
      IndexedStep(paths, p, node, from);
      var indexed := IndexedFrom(paths, Render(p), node, from);
      if s in indexed {
        LaterLine(p, node, from, s, indexed[s]);
        ChildLine(p, node, from, s, indexed[s]);
      }
    }
  }

  lemma LaterLine(p: seq<Step>, node: Node, from: nat, s: string, line: int)
    requires HasEntry(node, from)
    ensures IsLineOf(p, node, Next(node, from), s, line) ==> IsLineOf(p, node, from, s, line)
  {
    hide LineAt, Render;
    if a :| LineAt(node, Next(node, from), a, line) && s == Render(p + a) {
      LineAtLater(node, from, Next(node, from), a, line);
    }
  }

  lemma ChildLine(p: seq<Step>, node: Node, from: nat, s: string, line: int)
    requires HasEntry(node, from)
    ensures var e := EntryAt(node, from);
      IsLineOf(p + [e.step], e.child, 0, s, line) ==> IsLineOf(p, node, from, s, line)
    ensures var e := EntryAt(node, from); IsLineOf(p, node, from, Render(p + [e.step]), e.line)
  {
    hide LineAt, Render;
    var e := EntryAt(node, from);
    LineAtEntry(node, from, [], 0);
    if a :| LineAt(e.child, 0, a, line) && s == Render(p + [e.step] + a) {
      LineAtEntry(node, from, a, line);
      assert p + [e.step] + a == p + ([e.step] + a);
    }
  }

  // ----- Main results -----

  function Top(doc: Node): Node {
    if doc.kind == Document && |doc.content| > 0 then doc.content[0] else doc
  }

  /** In a document's index every address has its path, and every path the line of an address. */
  lemma TopExactly(doc: Node)
    ensures doc.kind == Document && doc.content != [] ==> Top(doc) == doc.content[0]
    ensures doc.kind != Document || doc.content == [] ==> Top(doc) == doc
  {
  }

  lemma IndexOfDocument(doc: Node, s: string)
    ensures var index := PathsOf(Some(doc));
      && (forall a, line :: LineAt(Top(doc), 0, a, line) && s == Render(a) ==> s in index)
      && (s in index ==> IsLineOf([], Top(doc), 0, s, index[s]))
  {
    hide LineAt;
    var index := PathsOf(Some(doc));
    assert index == IndexedFrom(map[], Render([]), Top(doc), 0);
    HeldLineIsAddressed(map[], [], Top(doc), 0, s);
    forall a, line | LineAt(Top(doc), 0, a, line) && s == Render(a) ensures s in index {
      AddressIsIndexed(map[], [], Top(doc), 0, a, line);
      assert [] + a == a;
    }
  }

  /** The index holds the paths of the document's addresses and nothing else. */
  lemma IndexedPathsAreAddresses(doc: Node, s: string)
    ensures s in PathsOf(Some(doc)) <==> exists a, line :: LineAt(Top(doc), 0, a, line) && s == Render(a)
  {
    IndexOfDocument(doc, s);
    hide LineAt, PathsOf, Render;
    if s in PathsOf(Some(doc)) {
      var line := PathsOf(Some(doc))[s];
      var a :| LineAt(Top(doc), 0, a, line) && s == Render([] + a);
      assert [] + a == a;
      assert LineAt(Top(doc), 0, a, line) && s == Render(a);
    } else {
      assert forall a, line :: LineAt(Top(doc), 0, a, line) ==> s != Render(a);
    }
  }

  /** Looking up the path of any address can only give that address's own line. */
  ghost predicate AnswersEveryAddress(doc: Node) {
    forall a, line, answer :: LineAt(Top(doc), 0, a, line) && IsBestLine(PathsOf(Some(doc)), Render(a), answer) ==>
      answer == line
  }

  /** Addresses with the same path are on the same line. */
  ghost predicate PathsTellLines(doc: Node) {
    forall a, b, line, line' ::
      LineAt(Top(doc), 0, a, line) && LineAt(Top(doc), 0, b, line') && Render(a) == Render(b) ==>
      line == line'
  }

  lemma IndexedIsBest(paths: Paths, path: string)
    requires path in paths
    ensures IsBestLine(paths, path, paths[path])
  {
    assert IsBestAncestor(paths, path, path);
  }

  /**
   Every address of a document is answered with its own line if and only if addresses with the same
   path share a line.
   */
  lemma LookupExactly(doc: Node)
    ensures AnswersEveryAddress(doc) <==> PathsTellLines(doc)
  {
    hide LineAt, PathsOf, Render, IsBestLine;
    var index := PathsOf(Some(doc));
    if AnswersEveryAddress(doc) {
      forall a, b, line, line' | LineAt(Top(doc), 0, a, line) && LineAt(Top(doc), 0, b, line') && Render(a) == Render(b)
        ensures line == line'
      {
        IndexOfDocument(doc, Render(a));
        IndexedIsBest(index, Render(a));
      }
    }
    if PathsTellLines(doc) {
      forall a, line, answer | LineAt(Top(doc), 0, a, line) && IsBestLine(index, Render(a), answer)
        ensures answer == line
      {
        IndexOfDocument(doc, Render(a));
        IndexedIsBest(index, Render(a));
        BestLineIsUnique(index, Render(a), answer, index[Render(a)]);
        var b :| LineAt(Top(doc), 0, b, index[Render(a)]) && Render(a) == Render([] + b);
        assert [] + b == b;
      }
    }
  }

  /** In a well-formed tree an address leads to one line. */
  lemma {:induction false} OneLineForEachAddress(node: Node, addr: seq<Step>, line: int, line': int)
    requires WellFormed(node) && LineAt(node, 0, addr, line) && LineAt(node, 0, addr, line')
    ensures line == line'
    decreases |addr|
  {
    var i: nat :| HasEntry(node, i) && LineVia(EntryAt(node, i), addr, line);
    var j: nat :| HasEntry(node, j) && LineVia(EntryAt(node, j), addr, line');
    assert i == j;
    if |addr| > 1 {
      OneLineForEachAddress(EntryAt(node, i).child, addr[1..], line, line');
    }
  }

  /** Distinct addresses of a well-formed tree get distinct paths, and looking one up gives exactly its line. */
  lemma LookupRoundTrip(doc: Node, a: seq<Step>, b: seq<Step>, line: int, line': int, answer: int)
    requires WellFormed(Top(doc)) && LineAt(Top(doc), 0, a, line) && LineAt(Top(doc), 0, b, line')
    requires IsBestLine(PathsOf(Some(doc)), Render(a), answer)
    ensures answer == line
    ensures a != b ==> Render(a) != Render(b)
  {
    hide LineAt, PathsOf, Render, IsBestLine;
    forall a, b, line, line' | LineAt(Top(doc), 0, a, line) && LineAt(Top(doc), 0, b, line') && Render(a) == Render(b)
      ensures line == line' && a == b
    {
      LineAtIsPlain(Top(doc), 0, a, line);
      LineAtIsPlain(Top(doc), 0, b, line');
      RenderIsInjective(a, b);
      OneLineForEachAddress(Top(doc), a, line, line');
    }
    LookupExactly(doc);
  }

  const DottedPart := Node(Mapping, "", 0, [Node(Scalar, "b", 2, []), Node(Scalar, "", 0, [])])

  const DottedDocument :=
    Node(Mapping, "", 0, [Node(Scalar, "a", 1, []), DottedPart, Node(Scalar, "a.b", 3, []), Node(Scalar, "", 0, [])])

  lemma DottedPaths()
    ensures Render([Key("a"), Key("b")]) == "a.b" == Render([Key("a.b")])
  {
    assert [Key("a"), Key("b")][..1] == [Key("a")];
  }

  lemma DottedAddresses()
    ensures LineAt(DottedDocument, 0, [Key("a"), Key("b")], 2) && LineAt(DottedDocument, 0, [Key("a.b")], 3)
  {
    assert [Key("a"), Key("b")][1..] == [Key("b")];
    assert LineVia(EntryAt(DottedPart, 0), [Key("b")], 2);
    assert LineVia(EntryAt(DottedDocument, 0), [Key("a"), Key("b")], 2);
    assert LineVia(EntryAt(DottedDocument, 2), [Key("a.b")], 3);
  }

  /** A key with a dot can give two addresses on different lines the same path, and then one is answered wrongly. */
  lemma DottedKeyIsAnsweredWrongly()
    ensures !AnswersEveryAddress(DottedDocument) && !PathsTellLines(DottedDocument)
  {
    DottedPaths();
    DottedAddresses();
    hide LineAt, Render;
    assert Top(DottedDocument) == DottedDocument;
    LookupExactly(DottedDocument);
  }
}
