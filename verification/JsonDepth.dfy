/** The nesting depth of JSON values: the recursive gate and the work-list check.
    Models assertJsonDepth of apps/api/src/common/viewer-request-limits.ts and depth of
    crates/solarch-core/src/canonical.rs. */
module JsonDepth {
  const VIEWER_JSON_MAX_DEPTH: nat := 8

  datatype Json =
    | Null
    | Scalar(text: string)
    | JsonArray(values: seq<Json>)
    | Object(keys: seq<string>, members: seq<Json>)

  predicate IsContainer(v: Json) {
    v.JsonArray? || v.Object?
  }

  function Children(v: Json): (children: seq<Json>)
    ensures forall i :: 0 <= i < |children| ==> children[i] < v
  {
    match v
    case JsonArray(values) => values
    case Object(_, members) => members
    case _ => []
  }

  function Max(a: nat, b: nat): nat {
    if a < b then b else a
  }

  // ----- the recursive gate -----

  function Depth(v: Json): nat
    decreases v, 1
  {
    if IsContainer(v) then 1 + DepthOfAll(v, Children(v)) else 0
  }

  function DepthOfAll(parent: Json, values: seq<Json>): (depth: nat)
    requires forall i :: 0 <= i < |values| ==> values[i] < parent
    ensures forall i :: 0 <= i < |values| ==> Depth(values[i]) <= depth
    ensures depth > 0 ==> exists i :: 0 <= i < |values| && Depth(values[i]) == depth
    decreases parent, 0, |values|
  {
    if values == [] then 0
    else
      assert forall i :: 0 <= i < |values[1..]| ==> values[1..][i] == values[i + 1];
      Max(Depth(values[0]), DepthOfAll(parent, values[1..]))
  }

  // ----- what the depth is -----

  /** An element of an array, or a member of an object. */
  predicate Holds(parent: Json, child: Json) {
    match parent
    case JsonArray(values) => child in values
    case Object(_, members) => child in members
    case _ => false
  }

  /** Containers one inside the other, from `v` inwards. */
  ghost predicate IsChain(v: Json, chain: seq<Json>) {
    && (chain != [] ==> chain[0] == v)
    && (forall i :: 0 <= i < |chain| ==> chain[i].JsonArray? || chain[i].Object?)
    && (forall i :: 0 <= i < |chain| - 1 ==> Holds(chain[i], chain[i + 1]))
  }

  lemma HeldIsShallower(parent: Json, child: Json)
    requires Holds(parent, child)
    ensures Depth(child) < Depth(parent)
  {
    var children := Children(parent);
    var i :| 0 <= i < |children| && children[i] == child;
    assert Depth(children[i]) <= DepthOfAll(parent, children);
  }

  lemma {:induction false} ChainBoundsDepth(v: Json, chain: seq<Json>)
    requires IsChain(v, chain)
    ensures |chain| <= Depth(v)
    decreases |chain|
  {
    if |chain| > 1 {
      assert Holds(chain[0], chain[1]);
      assert IsChain(chain[1], chain[1..]) by {
        assert forall i :: 0 <= i < |chain[1..]| ==> chain[1..][i] == chain[i + 1];
      }
      ChainBoundsDepth(chain[1], chain[1..]);
      HeldIsShallower(v, chain[1]);
    }
  }

  lemma DeepestChild(v: Json) returns (child: Json)
    requires Depth(v) > 1
    ensures Holds(v, child) && Depth(child) == Depth(v) - 1
  {
    var children := Children(v);
    var i :| 0 <= i < |children| && Depth(children[i]) == DepthOfAll(v, children);
    child := children[i];
  }

  lemma ChainGrows(v: Json, child: Json, chain: seq<Json>)
    requires Holds(v, child) && IsChain(child, chain)
    ensures IsChain(v, [v] + chain)
  {
    var longer := [v] + chain;
    assert forall i :: 1 <= i < |longer| ==> longer[i] == chain[i - 1];
    forall i | 0 <= i < |longer| - 1 ensures Holds(longer[i], longer[i + 1]) {
      if i > 0 { assert Holds(chain[i - 1], chain[i]); }
    }
  }

  lemma {:induction false} DeepChain(v: Json, n: nat) returns (chain: seq<Json>)
    requires n <= Depth(v)
    ensures IsChain(v, chain) && |chain| == n
    decreases n
  {
    if n == 0 {
      chain := [];
    } else if n == 1 {
      chain := [v];
    } else {
      var child := DeepestChild(v);
      var rest := DeepChain(child, n - 1);
      ChainGrows(v, child, rest);
      chain := [v] + rest;
    }
  }

  /** The depth is the length of the longest chain of containers. */
  lemma DepthIsTheLongestChain(v: Json, n: nat)
    ensures n <= Depth(v) <==> exists chain :: IsChain(v, chain) && |chain| == n
  {
    if n <= Depth(v) {
      var chain := DeepChain(v, n);
    }
    if chain :| IsChain(v, chain) && |chain| == n { ChainBoundsDepth(v, chain); }
  }

  /** Number of containers in a value. */
  function Size(v: Json): nat
    decreases v, 1
  {
    if IsContainer(v) then 1 + SizeOfAll(v, Children(v)) else 0
  }

  function SizeOfAll(parent: Json, values: seq<Json>): nat
    requires forall i :: 0 <= i < |values| ==> values[i] < parent
    decreases parent, 0, |values|
  {
    if values == [] then 0 else Size(values[0]) + SizeOfAll(parent, values[1..])
  }

  // ----- the work list -----

  datatype Entry = Entry(value: Json, depth: nat)

  /** What is still to visit, in containers. */
  function Work(pending: seq<Entry>): nat {
    if pending == [] then 0 else Work(pending[..|pending| - 1]) + Size(pending[|pending| - 1].value)
  }

  /** An entry at this depth leads below the limit. Depth 1 is the outermost container. */
  predicate LeadsTooDeep(e: Entry) {
    IsContainer(e.value) && e.depth + Depth(e.value) > VIEWER_JSON_MAX_DEPTH + 1
  }

  predicate SomeTooDeep(pending: seq<Entry>) {
    pending != [] && (LeadsTooDeep(pending[|pending| - 1]) || SomeTooDeep(pending[..|pending| - 1]))
  }

  predicate SomeChildTooDeep(values: seq<Json>, depth: nat) {
    values != [] && (LeadsTooDeep(Entry(values[0], depth)) || SomeChildTooDeep(values[1..], depth))
  }

  lemma {:induction false} ChildTooDeep(parent: Json, values: seq<Json>, depth: nat)
    requires forall i :: 0 <= i < |values| ==> values[i] < parent
    requires depth <= VIEWER_JSON_MAX_DEPTH
    ensures SomeChildTooDeep(values, depth + 1) <==> DepthOfAll(parent, values) + depth > VIEWER_JSON_MAX_DEPTH
    decreases |values|
  {
    if values != [] {
      assert forall i :: 0 <= i < |values[1..]| ==> values[1..][i] == values[i + 1];
      ChildTooDeep(parent, values[1..], depth);
    }
  }

  /** A container that is not itself too deep leads too deep exactly through a child. */
  lemma ThroughAChild(current: Entry)
    requires IsContainer(current.value) && current.depth <= VIEWER_JSON_MAX_DEPTH
    ensures LeadsTooDeep(current) <==> SomeChildTooDeep(Children(current.value), current.depth + 1)
  {
    ChildTooDeep(current.value, Children(current.value), current.depth);
  }

  function SizeOfEach(values: seq<Json>): nat {
    if values == [] then 0 else Size(values[0]) + SizeOfEach(values[1..])
  }

  lemma {:induction false} SameSizes(parent: Json, values: seq<Json>)
    requires forall i :: 0 <= i < |values| ==> values[i] < parent
    ensures SizeOfAll(parent, values) == SizeOfEach(values)
    decreases |values|
  {
    if values != [] {
      assert forall i :: 0 <= i < |values[1..]| ==> values[1..][i] == values[i + 1];
      SameSizes(parent, values[1..]);
    }
  }

  /** Pushes the containers among the children. */
  method PushChildren(before: seq<Entry>, children: seq<Json>, depth: nat) returns (pending: seq<Entry>)
    ensures Work(pending) == Work(before) + SizeOfEach(children)
    ensures SomeTooDeep(pending) <==> SomeTooDeep(before) || SomeChildTooDeep(children, depth)
  {
    pending := before;
    var i := 0;
    assert children[0..] == children;
    while i < |children|
      invariant 0 <= i <= |children|
      invariant Work(pending) + SizeOfEach(children[i..]) == Work(before) + SizeOfEach(children)
      invariant SomeTooDeep(pending) || SomeChildTooDeep(children[i..], depth)
        <==> SomeTooDeep(before) || SomeChildTooDeep(children, depth)
    {
      assert children[i..][1..] == children[i + 1..];
      pending := PushIfContainer(pending, children[i], depth);
      i := i + 1;
    }
  }

  method PushIfContainer(before: seq<Entry>, child: Json, depth: nat) returns (pending: seq<Entry>)
    ensures Work(pending) == Work(before) + Size(child)
    ensures SomeTooDeep(pending) <==> SomeTooDeep(before) || LeadsTooDeep(Entry(child, depth))
  {
    if IsContainer(child) {
      return before + [Entry(child, depth)];
    }
    return before;
  }

  /** Pops one entry. Rejects it if it lies too deep, replaces it by its containers
      otherwise. */
  method Visit(pending: seq<Entry>) returns (rejected: bool, rest: seq<Entry>)
    requires pending != []
    ensures rejected ==> SomeTooDeep(pending)
    ensures !rejected ==> (SomeTooDeep(rest) <==> SomeTooDeep(pending))
    ensures !rejected ==> Work(rest) < Work(pending) || (Work(rest) == Work(pending) && |rest| < |pending|)
  {
    var current := pending[|pending| - 1];
    rest := pending[..|pending| - 1];
    if !IsContainer(current.value) {
      return false, rest;
    }
    if current.depth > VIEWER_JSON_MAX_DEPTH {
      return true, rest;
    }
    ThroughAChild(current);
    SameSizes(current.value, Children(current.value));
    rest := PushChildren(rest, Children(current.value), current.depth + 1);
    return false, rest;
  }

  /** Accepts exactly the values without nine containers one inside the other; the work list
      and the recursive gate are the same relation. Terminates on every value. */
  method AssertJsonDepth(value: Json) returns (accepted: bool)
    ensures accepted <==> Depth(value) <= VIEWER_JSON_MAX_DEPTH
    ensures accepted <==> !exists chain :: IsChain(value, chain) && |chain| == 9
  {
    DepthIsTheLongestChain(value, 9);
    var pending := [] + [Entry(value, 1)];
    while |pending| > 0
      invariant SomeTooDeep(pending) <==> Depth(value) > VIEWER_JSON_MAX_DEPTH
      decreases Work(pending), |pending|
    {
      var rejected, rest := Visit(pending);
      if rejected {
        return false;
      }
      pending := rest;
    }
    return true;
  }
}
