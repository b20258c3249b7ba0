/** The nesting guard of the configuration reader (`measureJsonDepth` in src/config/config.ts). */
module JsonDepth {
  import opened Json

  datatype Frame = Frame(value: Json, depth: nat)

  /** The deepest level that the frames on the stack will still lead to. */
  function Reach(stack: seq<Frame>): nat {
    if stack == [] then 0
    else
      var top := stack[|stack| - 1];
      Max(Reach(stack[..|stack| - 1]), top.depth + Depth(top.value) - 1)
  }

  function Work(stack: seq<Frame>): nat {
    if stack == [] then 0 else Work(stack[..|stack| - 1]) + Size(stack[|stack| - 1].value)
  }

  lemma PushMeasures(stack: seq<Frame>, f: Frame)
    ensures Reach(stack + [f]) == Max(Reach(stack), f.depth + Depth(f.value) - 1)
    ensures Work(stack + [f]) == Work(stack) + Size(f.value)
  {
    assert (stack + [f])[..|stack|] == stack;
  }

  /** What is still to come from the children that have not been looked at. */
  function Pending(depth: nat, children: seq<Json>): nat {
    if ItemsDepth(children) == 0 then 0 else depth + ItemsDepth(children)
  }

  lemma PendingFirst(depth: nat, children: seq<Json>, stack: seq<Frame>)
    requires children != []
    ensures var f := Frame(children[0], depth + 1);
            Max(Reach(stack), Pending(depth, children)) ==
            Max(if IsContainer(children[0]) then Reach(stack + [f]) else Reach(stack), Pending(depth, children[1..]))
    ensures ItemsSize(children) == Size(children[0]) + ItemsSize(children[1..])
  {
    PushMeasures(stack, Frame(children[0], depth + 1));
    DepthIsPositive(children[0]);
  }

  lemma DepthIsPositive(v: Json)
    ensures Depth(v) >= 1
  {
  }

  lemma PopMeasures(stack: seq<Frame>)
    requires stack != []
    ensures var f, rest := stack[|stack| - 1], stack[..|stack| - 1];
            && Reach(stack) == Max(Max(Reach(rest), f.depth), Pending(f.depth, Children(f.value)))
            && Work(stack) == Work(rest) + 1 + ItemsSize(Children(f.value))
  {
    ChildrenMeasures(stack[|stack| - 1].value);
  }

  lemma NothingPending(depth: nat)
    ensures Pending(depth, []) == 0 && ItemsSize([]) == 0
  {
  }

  // ---------- the program ----------

  /** The deepest level met so far or still to be met is the target. */
  predicate OnTheWay(maxDepth: nat, stack: seq<Frame>, target: nat) { Max(maxDepth, Reach(stack)) == target }

  /** The same, while the children of a frame at `depth` are looked at; less is left than there was. */
  predicate Among(maxDepth: nat, stack: seq<Frame>, depth: nat, rest: seq<Json>, target: nat, was: nat) {
    Max(maxDepth, Max(Reach(stack), Pending(depth, rest))) == target && Work(stack) + ItemsSize(rest) < was
  }

  lemma SetOut(root: Json)
    ensures OnTheWay(0, [Frame(root, 1)], Depth(root))
  {
    PushMeasures([], Frame(root, 1));
    assert [] + [Frame(root, 1)] == [Frame(root, 1)];
    DepthIsPositive(root);
  }

  lemma TakeFrame(maxDepth: nat, stack: seq<Frame>, target: nat)
    requires stack != [] && OnTheWay(maxDepth, stack, target)
    ensures var f := stack[|stack| - 1];
            Among(if f.depth > maxDepth then f.depth else maxDepth, stack[..|stack| - 1], f.depth, Children(f.value),
                target, Work(stack))
  {
    hide Reach, Pending, Work, ItemsSize, Children;
    PopMeasures(stack);
  }

  lemma LookAtChild(maxDepth: nat, stack: seq<Frame>, depth: nat, rest: seq<Json>, target: nat, was: nat)
    requires rest != [] && Among(maxDepth, stack, depth, rest, target, was)
    ensures var f := Frame(rest[0], depth + 1);
            Among(maxDepth, if IsContainer(rest[0]) then stack + [f] else stack, depth, rest[1..], target, was)
  {
    hide Reach, Pending, Work, ItemsSize;
    PendingFirst(depth, rest, stack);
    PushMeasures(stack, Frame(rest[0], depth + 1));
  }

  lemma AllLookedAt(maxDepth: nat, stack: seq<Frame>, depth: nat, target: nat, was: nat)
    requires Among(maxDepth, stack, depth, [], target, was)
    ensures OnTheWay(maxDepth, stack, target) && Work(stack) < was
  {
    NothingPending(depth);
  }

  lemma Arrived(maxDepth: nat, target: nat)
    requires OnTheWay(maxDepth, [], target)
    ensures maxDepth == target
  {
  }

  /** The walk with an explicit stack measures the nesting depth, whatever the tree. */
  method MeasureJsonDepth(root: Json) returns (maxDepth: nat)
    ensures maxDepth == Depth(root)
  {
    hide *;
    maxDepth := 0;
    var stack := [Frame(root, 1)];
    SetOut(root);
    while |stack| > 0
      invariant OnTheWay(maxDepth, stack, Depth(root))
      decreases Work(stack)
    {
      var frame := stack[|stack| - 1];
      ghost var was := Work(stack);
      TakeFrame(maxDepth, stack, Depth(root));
      stack := stack[..|stack| - 1];
      if frame.depth > maxDepth {
        maxDepth := frame.depth;
      }
      var children := Children(frame.value);
      assert children[0..] == children;
      for i := 0 to |children|
        invariant Among(maxDepth, stack, frame.depth, children[i..], Depth(root), was)
      {
        var child := children[i];
        LookAtChild(maxDepth, stack, frame.depth, children[i..], Depth(root), was);
        assert children[i..][0] == child && children[i..][1..] == children[i + 1..];
        if IsContainer(child) {
          stack := stack + [Frame(child, frame.depth + 1)];
        }
      }
      assert children[|children|..] == [];
      AllLookedAt(maxDepth, stack, frame.depth, Depth(root), was);
    }
    assert stack == [];
    Arrived(maxDepth, Depth(root));
  }

  // ---------- what the depth is ----------

  predicate IsIn(x: Json, v: Json) {
    match v
    case Array(items) => x in items
    case Record(e) => exists i :: 0 <= i < |e| && e[i].value == x
    case _ => false
  }

  lemma ChildrenAreIn(v: Json)
    ensures forall x :: x in Children(v) <==> IsIn(x, v)
  {
    if v.Record? {
      var e := v.entries;
      forall i | 0 <= i < |e| ensures e[i].value in Values(e) {
        assert Values(e)[i] == e[i].value;
      }
      forall x | x in Values(e) ensures IsIn(x, v) {
        var i :| 0 <= i < |e| && Values(e)[i] == x;
        assert e[i].value == x;
      }
    }
  }

  /** Containers, each in the one before. */
  predicate IsChain(chain: seq<Json>) {
    && (forall i :: 0 <= i < |chain| ==> IsContainer(chain[i]))
    && forall i :: 0 <= i < |chain| - 1 ==> IsIn(chain[i + 1], chain[i])
  }

  lemma {:induction false} ItemsDepthIsMax(items: seq<Json>)
    ensures forall x <- items :: IsContainer(x) ==> Depth(x) <= ItemsDepth(items)
    ensures ItemsDepth(items) == 0 || exists x <- items :: IsContainer(x) && Depth(x) == ItemsDepth(items)
  {
    if items == [] {
    } else {
      ItemsDepthIsMax(items[1..]);
      assert items == [items[0]] + items[1..];
      hide Depth;
    }
  }

  /** The depth of a container is the length of the longest chain of containers that begins with it; what
      is no container counts as one level. */
  lemma DepthIsLongestChain(v: Json, chain: seq<Json>) returns (longest: seq<Json>)
    requires chain != [] && chain[0] == v && IsChain(chain)
    ensures |chain| <= Depth(v)
    ensures longest != [] && longest[0] == v && IsChain(longest) && |longest| == Depth(v)
  {
    NoChainIsLonger(v, chain);
    longest := SomeChainIsAsLong(v);
  }

  lemma {:induction false} NoChainIsLonger(v: Json, chain: seq<Json>)
    requires chain != [] && chain[0] == v && IsChain(chain)
    ensures |chain| <= Depth(v)
    decreases |chain|
  {
    ChildrenMeasures(v);
    if |chain| == 1 {
    } else {
      ItemsDepthIsMax(Children(v));
      ChildrenAreIn(v);
      hide Depth, Children, ItemsDepth, IsIn;
      assert forall i :: 0 <= i < |chain| - 1 ==> chain[1..][i] == chain[i + 1];
      NoChainIsLonger(chain[1], chain[1..]);
    }
  }

  lemma {:induction false} SomeChainIsAsLong(v: Json) returns (chain: seq<Json>)
    requires IsContainer(v)
    ensures chain != [] && chain[0] == v && IsChain(chain) && |chain| == Depth(v)
    decreases Depth(v)
  {
    ChildrenMeasures(v);
    ItemsDepthIsMax(Children(v));
    ChildrenAreIn(v);
    hide Depth, Children, ItemsDepth, IsIn;
    if ItemsDepth(Children(v)) == 0 {
      chain := [v];
    } else {
      var x :| x in Children(v) && IsContainer(x) && Depth(x) == ItemsDepth(Children(v));
      var rest := SomeChainIsAsLong(x);
      chain := [v] + rest;
      assert forall i :: 0 < i < |chain| ==> chain[i] == rest[i - 1];
    }
  }
}
