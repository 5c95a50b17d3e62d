/** The scoped override rewriter of mkparams.py: one pass over the lines of a YAML file with a stack
    of enclosing blocks. Lines come already matched against the key pattern. */
module ParamRewriter {
  import opened Options

  /** A key line with its indentation, key and value, or any other line. */
  datatype Line = Key(indent: nat, key: string, value: string) | Other(text: string)

  /** One `a.b=value` override; `path` is the dotted name split at its dots. */
  datatype Override = Override(path: seq<string>, value: string)

  datatype OutLine = Kept(line: Line) | Rewritten(indent: nat, key: string, value: string)

  /** Line j opens a block. */
  predicate Opens(l: Line) { l.Key? && l.value == "" }

  /** Block j still encloses position i: every key line after j up to and including i is indented
      deeper than j. */
  ghost predicate Encloses(lines: seq<Line>, j: nat, i: int) {
    && j < |lines| && j <= i < |lines| && Opens(lines[j])
    && forall k :: j < k <= i && lines[k].Key? ==> lines[j].indent < lines[k].indent
  }

  /** The simple definition of a line's parent: the latest of the first n lines that encloses it. */
  ghost function LatestEnclosing(lines: seq<Line>, i: nat, n: nat): (j: Option<nat>)
    requires i < |lines| && n <= i
    ensures j.Some? ==> j.value < n && Encloses(lines, j.value, i)
    ensures forall k: nat :: k < n && Encloses(lines, k, i) ==> j.Some? && k <= j.value
  {
    if n == 0 then None else if Encloses(lines, n - 1, i) then Some(n - 1) else LatestEnclosing(lines, i, n - 1)
  }

  ghost function Parent(lines: seq<Line>, i: nat): Option<string>
    requires i < |lines|
  {
    match LatestEnclosing(lines, i, i)
    case Some(j) => Some(lines[j].key)
    case None => None
  }

  /** An override concerns a key below a parent: last components equal, and for a dotted override the
      one before equal to the parent. */
  predicate Matches(o: Override, key: string, parent: Option<string>)
    requires o.path != []
  {
    && o.path[|o.path| - 1] == key
    && (|o.path| > 1 ==> parent == Some(o.path[|o.path| - 2]))
  }

  /** An override without a dot concerns its key under any parent or none; a dotted one, whatever comes before its
      last two components, concerns its key directly under its parent only. */
  lemma MatchesIff(scope: seq<string>, above: string, name: string, value: string, key: string, parent: Option<string>)
    ensures Matches(Override([name], value), key, parent) <==> key == name
    ensures Matches(Override(scope + [above, name], value), key, parent) <==> key == name && parent == Some(above)
  {
    var path := scope + [above, name];
    assert path[|path| - 1] == name && path[|path| - 2] == above;
  }

  predicate Proper(overrides: seq<Override>) { forall k :: 0 <= k < |overrides| ==> overrides[k].path != [] }

  /** Override k is the first one that matches. */
  predicate FirstMatch(overrides: seq<Override>, k: nat, key: string, parent: Option<string>)
    requires Proper(overrides)
  {
    && k < |overrides| && Matches(overrides[k], key, parent)
    && forall j :: 0 <= j < k ==> !Matches(overrides[j], key, parent)
  }

  /** What becomes of line i: kept, or rewritten by the first override that matches it. */
  ghost predicate RewriteOf(lines: seq<Line>, overrides: seq<Override>, i: nat, out: OutLine)
    requires i < |lines| && Proper(overrides)
  {
    match out
    case Kept(l) =>
      l == lines[i] && (l.Key? ==> forall k: nat :: k < |overrides| ==> !Matches(overrides[k], l.key, Parent(lines, i)))
    case Rewritten(indent, key, value) =>
      lines[i].Key? && indent == lines[i].indent && key == lines[i].key
      && exists k: nat :: FirstMatch(overrides, k, key, Parent(lines, i)) && value == overrides[k].value
  }

  // ---- The stack ----

  function IndentAt(lines: seq<Line>, j: nat): nat { if j < |lines| && lines[j].Key? then lines[j].indent else 0 }

  /** Positions and indents both strictly increase. */
  ghost predicate Rising(lines: seq<Line>, at: seq<nat>) {
    forall a, b :: 0 <= a < b < |at| ==> at[a] < at[b] && IndentAt(lines, at[a]) < IndentAt(lines, at[b])
  }

  /** `at` lists exactly the blocks before position n that enclose line i. */
  ghost predicate Lists(lines: seq<Line>, n: nat, i: int, at: seq<nat>) {
    forall j: nat :: j in at <==> j < n && Encloses(lines, j, i)
  }

  /** The stack of the first n lines, by line number. */
  ghost predicate StackIs(lines: seq<Line>, n: nat, at: seq<nat>) {
    n <= |lines| && Rising(lines, at) && Lists(lines, n, n - 1, at)
  }

  /** A block encloses one more line exactly if that line is no key or is indented deeper. */
  lemma EnclosesNext(lines: seq<Line>, j: nat, i: nat)
    requires j < i < |lines|
    ensures Encloses(lines, j, i) <==>
              Encloses(lines, j, i - 1) && (lines[i].Key? ==> IndentAt(lines, j) < lines[i].indent)
  {
  }

  /** Popping what is indented at least as deep as key line i leaves its earlier enclosing blocks. */
  lemma PopLeavesEnclosing(lines: seq<Line>, i: nat, at: seq<nat>, m: nat)
    requires i < |lines| && lines[i].Key? && StackIs(lines, i, at) && m <= |at|
    requires forall a :: m <= a < |at| ==> IndentAt(lines, at[a]) >= lines[i].indent
    requires m > 0 ==> IndentAt(lines, at[m - 1]) < lines[i].indent
    ensures Lists(lines, i, i, at[..m]) && Rising(lines, at[..m])
  {
    forall j: nat ensures j in at[..m] <==> j < i && Encloses(lines, j, i) {
      if j < i {
        EnclosesNext(lines, j, i);
      }
      if j in at[..m] {
        var a :| 0 <= a < m && at[a] == j;
        assert at[a] in at;
      }
      if j < i && Encloses(lines, j, i) {
        assert j in at;
        var a :| 0 <= a < |at| && at[a] == j;
        assert at[..m][a] == j;
      }
    }
  }

  /** The top of what is left is the parent. */
  lemma TopIsParent(lines: seq<Line>, i: nat, at: seq<nat>)
    requires i < |lines| && Lists(lines, i, i, at) && Rising(lines, at)
    ensures LatestEnclosing(lines, i, i) == if at == [] then None else Some(at[|at| - 1])
  {
    var p := LatestEnclosing(lines, i, i);
    if at != [] {
      assert at[|at| - 1] in at;
    }
    if p.Some? {
      assert p.value in at;
    }
  }

  /** A line that is not a key changes nothing. */
  lemma OtherKeepsStack(lines: seq<Line>, i: nat, at: seq<nat>)
    requires i < |lines| && lines[i].Other? && StackIs(lines, i, at)
    ensures StackIs(lines, i + 1, at)
  {
    forall j: nat ensures j in at <==> j < i + 1 && Encloses(lines, j, i) {
      if j < i {
        EnclosesNext(lines, j, i);
      }
    }
  }

  /** Pushing a block line, or not pushing another key line, completes the stack. */
  lemma PushCompletesStack(lines: seq<Line>, i: nat, at: seq<nat>)
    requires i < |lines| && lines[i].Key? && Lists(lines, i, i, at) && Rising(lines, at)
    ensures StackIs(lines, i + 1, if Opens(lines[i]) then at + [i] else at)
  {
    if Opens(lines[i]) {
      var more := at + [i];
      assert Encloses(lines, i, i);
      assert forall j: nat :: j in more <==> j in at || j == i;
      forall a, b | 0 <= a < b < |more|
        ensures more[a] < more[b] && IndentAt(lines, more[a]) < IndentAt(lines, more[b])
      {
        if b == |at| {
          assert at[a] in at;
          assert Encloses(lines, at[a], i);
        }
      }
    }
  }

  // ---- The rewriter ----

  /** The parent and key of each rewritten line among the first n, in order. */
  ghost function HitsOf(lines: seq<Line>, out: seq<OutLine>, n: nat): seq<(Option<string>, string)>
    requires n <= |out| && n <= |lines|
  {
    if n == 0 then []
    else HitsOf(lines, out, n - 1) + if out[n - 1].Rewritten? then [(Parent(lines, n - 1), out[n - 1].key)] else []
  }

  method FindOverride(overrides: seq<Override>, key: string, parent: Option<string>) returns (k: nat)
    requires Proper(overrides)
    ensures k <= |overrides|
    ensures k < |overrides| ==> FirstMatch(overrides, k, key, parent)
    ensures k == |overrides| ==> forall j :: 0 <= j < |overrides| ==> !Matches(overrides[j], key, parent)
  {
    k := 0;
    while k < |overrides|
      invariant k <= |overrides| && forall j :: 0 <= j < k ==> !Matches(overrides[j], key, parent)
    {
      var want := overrides[k].path;
      if want[|want| - 1] == key && (|want| <= 1 || (parent.Some? && parent.value == want[|want| - 2])) {
        return;
      }
      k := k + 1;
    }
  }

  /** Pops the blocks indented at least as deep as the current key. */
  method PopTo(stack: seq<(nat, string)>, indent: nat) returns (m: nat)
    ensures m <= |stack| && (m > 0 ==> stack[m - 1].0 < indent)
    ensures forall a :: m <= a < |stack| ==> stack[a].0 >= indent
  {
    m := |stack|;
    while m > 0 && stack[m - 1].0 >= indent
      invariant m <= |stack| && forall a :: m <= a < |stack| ==> stack[a].0 >= indent
    {
      m := m - 1;
    }
  }

  /** The stack of (indent, key) pairs belongs to the line numbers `at`. */
  ghost predicate Mirrors(lines: seq<Line>, at: seq<nat>, stack: seq<(nat, string)>) {
    |at| == |stack| && forall a :: 0 <= a < |at| ==>
      at[a] < |lines| && lines[at[a]].Key? && stack[a] == (lines[at[a]].indent, lines[at[a]].key)
  }

  /** After the pops, the top of the stack is the parent. */
  method PopToParent(lines: seq<Line>, i: nat, stack: seq<(nat, string)>, ghost at: seq<nat>)
    returns (m: nat, parent: Option<string>)
    requires i < |lines| && lines[i].Key? && StackIs(lines, i, at) && Mirrors(lines, at, stack)
    ensures m <= |stack| && parent == Parent(lines, i)
    ensures Lists(lines, i, i, at[..m]) && Rising(lines, at[..m])
  {
    m := PopTo(stack, lines[i].indent);
    PopLeavesEnclosing(lines, i, at, m);
    TopIsParent(lines, i, at[..m]);
    parent := if m == 0 then None else Some(stack[m - 1].1);
  }

  lemma OutputFits(lines: seq<Line>, overrides: seq<Override>, i: nat, k: nat)
    requires Proper(overrides) && i < |lines| && lines[i].Key? && k <= |overrides|
    requires k < |overrides| ==> FirstMatch(overrides, k, lines[i].key, Parent(lines, i))
    requires k == |overrides| ==> forall j :: 0 <= j < k ==> !Matches(overrides[j], lines[i].key, Parent(lines, i))
    ensures RewriteOf(lines, overrides, i,
                      if k < |overrides| then Rewritten(lines[i].indent, lines[i].key, overrides[k].value)
                      else Kept(lines[i]))
  {
  }

  method OutputFor(lines: seq<Line>, i: nat, overrides: seq<Override>, parent: Option<string>) returns (o: OutLine)
    requires Proper(overrides) && i < |lines| && lines[i].Key? && parent == Parent(lines, i)
    ensures RewriteOf(lines, overrides, i, o)
  {
    var k := FindOverride(overrides, lines[i].key, parent);
    OutputFits(lines, overrides, i, k);
    o := if k < |overrides| then Rewritten(lines[i].indent, lines[i].key, overrides[k].value) else Kept(lines[i]);
  }

  /** Pushes key line i if it opens a block. */
  method PushBlock(lines: seq<Line>, i: nat, stack: seq<(nat, string)>, ghost at: seq<nat>)
    returns (stack': seq<(nat, string)>, ghost at': seq<nat>)
    requires i < |lines| && lines[i].Key? && Lists(lines, i, i, at) && Rising(lines, at) && Mirrors(lines, at, stack)
    ensures StackIs(lines, i + 1, at') && Mirrors(lines, at', stack')
  {
    PushCompletesStack(lines, i, at);
    stack', at' := stack, at;
    if lines[i].value == "" {
      stack', at' := stack + [(lines[i].indent, lines[i].key)], at + [i];
    }
  }

  /** Handles key line i: pops, looks the parent up on the stack, and pushes a block. */
  method HandleKey(lines: seq<Line>, i: nat, overrides: seq<Override>, stack: seq<(nat, string)>, ghost at: seq<nat>)
    returns (o: OutLine, parent: Option<string>, stack': seq<(nat, string)>, ghost at': seq<nat>)
    requires Proper(overrides) && i < |lines| && lines[i].Key?
    requires StackIs(lines, i, at) && Mirrors(lines, at, stack)
    ensures StackIs(lines, i + 1, at') && Mirrors(lines, at', stack')
    ensures RewriteOf(lines, overrides, i, o) && parent == Parent(lines, i)
  {
    var m;
    m, parent := PopToParent(lines, i, stack, at);
    o := OutputFor(lines, i, overrides, parent);
    stack', at' := PushBlock(lines, i, stack[..m], at[..m]);
  }

  /** One pass. Every line yields one output line: itself, or, for a key line some override matches
      under the simple definition of its parent, the line rewritten by the first such override. */
  method Rewrite(lines: seq<Line>, overrides: seq<Override>)
    returns (out: seq<OutLine>, hits: seq<(Option<string>, string)>)
    requires Proper(overrides)
    ensures |out| == |lines| && forall i :: 0 <= i < |lines| ==> RewriteOf(lines, overrides, i, out[i])
    ensures hits == HitsOf(lines, out, |lines|)
  {
    out, hits := [], [];
    var stack: seq<(nat, string)> := [];
    ghost var at: seq<nat> := [];
    for i := 0 to |lines|
      invariant |out| == i && forall j :: 0 <= j < i ==> RewriteOf(lines, overrides, j, out[j])
      invariant hits == HitsOf(lines, out, i)
      invariant StackIs(lines, i, at) && Mirrors(lines, at, stack)
    {
      var o := Kept(lines[i]);
      HitsExtend(lines, out, o, i);
      if lines[i].Key? {
        var parent;
        o, parent, stack, at := HandleKey(lines, i, overrides, stack, at);
        HitsExtend(lines, out, o, i);
        if o.Rewritten? {
          hits := hits + [(parent, o.key)];
        }
      } else {
        OtherKeepsStack(lines, i, at);
      }
      out := out + [o];
    }
  }

  lemma {:induction false} HitsExtend(lines: seq<Line>, out: seq<OutLine>, o: OutLine, n: nat)
    requires n <= |out| && n <= |lines|
    ensures HitsOf(lines, out + [o], n) == HitsOf(lines, out, n)
  {
    if n > 0 {
      HitsExtend(lines, out, o, n - 1);
    }
  }

  // ---- The report ----

  /** The overrides the tool lists as not found: those whose last component no hit ends in. */
  predicate ListedMissing(o: Override, hits: seq<(Option<string>, string)>)
    requires o.path != []
  {
    forall k :: 0 <= k < |hits| ==> hits[k].1 != o.path[|o.path| - 1]
  }

  /** An override rewrote line i. */
  ghost predicate Used(lines: seq<Line>, overrides: seq<Override>, out: seq<OutLine>, k: nat, i: nat)
    requires Proper(overrides) && |out| == |lines|
  {
    i < |out| && out[i].Rewritten? && FirstMatch(overrides, k, out[i].key, Parent(lines, i))
  }

  lemma {:induction false} HitKeys(lines: seq<Line>, out: seq<OutLine>, n: nat, key: string)
    requires n <= |out| && n <= |lines|
    ensures (exists k :: 0 <= k < |HitsOf(lines, out, n)| && HitsOf(lines, out, n)[k].1 == key) <==>
              exists i :: 0 <= i < n && out[i].Rewritten? && out[i].key == key
  {
    if n > 0 {
      HitKeys(lines, out, n - 1, key);
      var before, after := HitsOf(lines, out, n - 1), HitsOf(lines, out, n);
      assert forall k :: 0 <= k < |before| ==> after[k] == before[k];
      if out[n - 1].Rewritten? {
        assert after[|before|] == (Parent(lines, n - 1), out[n - 1].key);
      }
    }
  }

  /** An override is listed as not found exactly when no line with its key was rewritten at all, by
      whichever override; in particular every one listed was not used. */
  lemma ListedMissingIff(lines: seq<Line>, overrides: seq<Override>, out: seq<OutLine>, k: nat)
    requires Proper(overrides) && |out| == |lines| && k < |overrides|
    ensures var last := overrides[k].path[|overrides[k].path| - 1];
            && (ListedMissing(overrides[k], HitsOf(lines, out, |lines|)) <==>
                  forall i :: 0 <= i < |out| && out[i].Rewritten? ==> out[i].key != last)
            && (ListedMissing(overrides[k], HitsOf(lines, out, |lines|)) ==>
                  forall i: nat :: !Used(lines, overrides, out, k, i))
  {
    HitKeys(lines, out, |lines|, overrides[k].path[|overrides[k].path| - 1]);
  }

  /** So a scoped override that found nothing goes unlisted when another rewrote the same key. */
  lemma UnusedYetUnlisted()
    ensures var lines := [Key(0, "b", ""), Key(2, "x", "1")];
            var overrides := [Override(["a", "x"], "5"), Override(["b", "x"], "6")];
            var out := [Kept(lines[0]), Rewritten(2, "x", "6")];
            && (forall i :: 0 <= i < 2 ==> RewriteOf(lines, overrides, i, out[i]))
            && (forall i: nat :: !Used(lines, overrides, out, 0, i))
            && !ListedMissing(overrides[0], HitsOf(lines, out, 2))
  {
    var lines := [Key(0, "b", ""), Key(2, "x", "1")];
    var overrides := [Override(["a", "x"], "5"), Override(["b", "x"], "6")];
    var out := [Kept(lines[0]), Rewritten(2, "x", "6")];
    assert Encloses(lines, 0, 1);
    assert LatestEnclosing(lines, 1, 1) == Some(0) && Parent(lines, 1) == Some("b");
    assert "a" != "b" && "b" != "x" by { assert "a"[0] != "b"[0] && "b"[0] != "x"[0]; }
    assert FirstMatch(overrides, 1, "x", Parent(lines, 1));
    HitKeys(lines, out, 2, "x");
    assert out[1].Rewritten? && out[1].key == "x";
  }

  /** The first override that matches wins, an undotted one reaches a key without a parent, and a block does not
      enclose the lines indented like itself. */
  lemma FirstMatchWins()
    ensures var lines := [Key(0, "b", ""), Key(2, "x", "1"), Key(0, "x", "2")];
            var overrides := [Override(["b", "x"], "5"), Override(["x"], "6")];
            && RewriteOf(lines, overrides, 1, Rewritten(2, "x", "5"))
            && RewriteOf(lines, overrides, 2, Rewritten(0, "x", "6"))
            && !RewriteOf(lines, overrides, 1, Rewritten(2, "x", "6"))
            && !RewriteOf(lines, overrides, 2, Rewritten(0, "x", "5"))
  {
    var lines := [Key(0, "b", ""), Key(2, "x", "1"), Key(0, "x", "2")];
    var overrides := [Override(["b", "x"], "5"), Override(["x"], "6")];
    assert Encloses(lines, 0, 1);
    assert LatestEnclosing(lines, 1, 1) == Some(0) && Parent(lines, 1) == Some("b");
    assert !Encloses(lines, 0, 2) by { assert lines[2].Key? && lines[0].indent == lines[2].indent; }
    assert !Encloses(lines, 1, 2);
    assert LatestEnclosing(lines, 2, 2) == None && Parent(lines, 2) == None;
    assert "5" != "6" by { assert "5"[0] != "6"[0]; }
    assert FirstMatch(overrides, 0, "x", Parent(lines, 1));
    assert FirstMatch(overrides, 1, "x", Parent(lines, 2));
  }
}
