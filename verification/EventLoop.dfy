/** The callback registry of the event loop (src/eventloop.c): a doubly linked list of
    callbacks kept in step with the `_callbacks` object of the JavaScript heap, and the
    discipline of the Duktape value stack. */
module EventLoop {
  import opened Text

  /** A JavaScript function, by identity. */
  type Function = nat

  datatype Value = Undefined | Number(n: nat) | Func(f: Function) | Stash | Callbacks | Other

  // ---------------------------------------------------------------- the registry as a value

  /** The ids in list order, the `_callbacks` object, the next id, and whether there is a
      JavaScript heap. */
  datatype Registry = Registry(ids: seq<nat>, functions: map<nat, Function>, sequence: nat, running: bool)

  const NO_REGISTRY := Registry([], map[], 0, false)

  ghost predicate Valid(r: Registry) {
    && (forall i, j :: 0 <= i < j < |r.ids| ==> r.ids[i] > r.ids[j])
    && (forall i :: 0 <= i < |r.ids| ==> r.ids[i] < r.sequence)
    && (forall x :: x in r.functions <==> x in r.ids)
    && (!r.running ==> r.ids == [])
  }

  datatype Event = Started | Created(f: Function) | Destroyed(k: nat) | Cleared

  function Without(ids: seq<nat>, k: nat): seq<nat>
    requires k < |ids|
  {
    ids[..k] + ids[k + 1..]
  }

  /** A start makes a heap with an empty `_callbacks`; creating needs a heap; destroying
      needs a callback of the list. */
  predicate Possible(r: Registry, e: Event) {
    match e
    case Started => !r.running
    case Created(_) => r.running
    case Destroyed(k) => k < |r.ids|
    case Cleared => true
  }

  function After(r: Registry, e: Event): Registry
    requires Possible(r, e)
  {
    match e
    case Started => r.(functions := map[], running := true)
    case Created(f) => Registry([r.sequence] + r.ids, r.functions[r.sequence := f], r.sequence + 1, r.running)
    case Destroyed(k) => r.(ids := Without(r.ids, k), functions := r.functions - {r.ids[k]})
    case Cleared => if r.running then NO_REGISTRY else r.(ids := [], functions := map[])
  }

  /** Ids stay distinct, in descending order and below the counter, and are exactly the
      keys of the `_callbacks` object. */
  lemma EventKeeps(r: Registry, e: Event)
    requires Valid(r) && Possible(r, e)
    ensures Valid(After(r, e))
  {
    match e {
      case Started =>
      case Created(f) =>
        var s := After(r, e);
        assert forall i :: 1 <= i < |s.ids| ==> s.ids[i] == r.ids[i - 1];
        assert s.ids[0] == r.sequence;
      case Destroyed(k) => DestroyKeeps(r, k);
      case Cleared =>
    }
  }

  /** What each event leaves: a start empties the keys and nothing else; a new callback comes
      first, under the counter; a destroyed one goes with its key; a clear leaves nothing, and
      the counter starts over only when there was a heap. */
  lemma EventExact(r: Registry, e: Event)
    requires Valid(r) && Possible(r, e)
    ensures var s := After(r, e);
            && s.running == (match e case Started => true case Cleared => false case _ => r.running)
            && s.sequence == (match e
                              case Created(_) => r.sequence + 1
                              case Cleared => if r.running then 0 else r.sequence
                              case _ => r.sequence)
            && (e.Started? ==> s.ids == r.ids && s.functions == map[])
            && (e.Created? ==> s.ids == [r.sequence] + r.ids && s.functions == r.functions[r.sequence := e.f])
            && (e.Cleared? ==> s.ids == [] && s.functions == map[])
            && (e.Destroyed? ==>
                  (forall x :: x in s.ids <==> x in r.ids && x != r.ids[e.k])
                  && forall x :: x in s.functions ==> s.functions[x] == r.functions[x])
  {
    hide Without;
    if e.Destroyed? {
      forall x: nat
        ensures x in After(r, e).ids <==> x in r.ids && x != r.ids[e.k]
      {
        DescendingWithout(r.ids, e.k, x);
      }
    }
  }

  ghost predicate Descending(ids: seq<nat>) {
    forall i, j :: 0 <= i < j < |ids| ==> ids[i] > ids[j]
  }

  lemma DescendingWithout(ids: seq<nat>, k: nat, x: nat)
    requires Descending(ids) && k < |ids|
    ensures Descending(Without(ids, k))
    ensures x in Without(ids, k) <==> x in ids && x != ids[k]
  {
    var r := Without(ids, k);
    assert forall i :: 0 <= i < |r| ==> r[i] == if i < k then ids[i] else ids[i + 1];
    if x in ids && x != ids[k] {
      var i :| 0 <= i < |ids| && ids[i] == x;
      assert r[if i < k then i else i - 1] == x;
    }
  }

  lemma DestroyKeeps(r: Registry, k: nat)
    requires Valid(r) && k < |r.ids|
    ensures Valid(After(r, Destroyed(k)))
  {
    hide Without;
    var s := After(r, Destroyed(k));
    DescendingWithout(r.ids, k, 0);
    forall x: nat
      ensures x in s.ids <==> x in r.ids && x != r.ids[k]
    {
      DescendingWithout(r.ids, k, x);
    }
    forall i | 0 <= i < |s.ids|
      ensures s.ids[i] < r.sequence
    {
      assert s.ids[i] in s.ids;
    }
  }

  ghost predicate IsRun(rs: seq<Registry>, events: seq<Event>) {
    && |rs| == |events| + 1
    && forall i :: 0 <= i < |events| ==> Possible(rs[i], events[i]) && rs[i + 1] == After(rs[i], events[i])
  }

  /** The invariant over whole runs. */
  lemma {:induction false} RunKeeps(rs: seq<Registry>, events: seq<Event>, i: nat)
    requires IsRun(rs, events) && i < |rs| && Valid(rs[0])
    ensures Valid(rs[i])
  {
    if i > 0 {
      RunKeeps(rs, events, i - 1);
      EventKeeps(rs[i - 1], events[i - 1]);
    }
  }

  /** A callback that is neither destroyed nor cleared resolves to the function it was
      created with, whatever else happens. */
  lemma {:induction false} Resolves(rs: seq<Registry>, events: seq<Event>, i: nat, j: nat, f: Function)
    requires IsRun(rs, events) && Valid(rs[0]) && i < j < |rs| && events[i] == Created(f)
    requires forall k :: i < k < j ==>
               !events[k].Cleared? && (events[k].Destroyed? ==> rs[k].ids[events[k].k] != rs[i].sequence)
    ensures var id := rs[i].sequence;
            id in rs[j].ids && id in rs[j].functions && rs[j].functions[id] == f && id < rs[j].sequence
    decreases j - i
  {
    if i + 1 < j {
      Resolves(rs, events, i, j - 1, f);
      RunKeeps(rs, events, j - 1);
      RunKeeps(rs, events, j);
    } else {
      RunKeeps(rs, events, j);
      assert rs[j].ids[0] == rs[i].sequence;
    }
  }

  // ---------------------------------------------------------------- the linked list

  class Callback {
    const id: nat
    var next: Callback?
    var prev: Callback?

    constructor (id: nat, next: Callback?)
      ensures this.id == id && this.next == next && prev == null
    {
      this.id, this.next, prev := id, next, null;
    }
  }

  /** `nodes` are linked in both directions, starting at `first`. */
  ghost predicate Linked(first: Callback?, nodes: seq<Callback>)
    reads nodes
  {
    && first == (if nodes == [] then null else nodes[0])
    && (forall i {:trigger nodes[i].next} :: 0 <= i < |nodes| ==>
          nodes[i].next == if i + 1 < |nodes| then nodes[i + 1] else null)
    && (forall i {:trigger nodes[i].prev} :: 0 <= i < |nodes| ==>
          nodes[i].prev == if i > 0 then nodes[i - 1] else null)
  }

  ghost function IdsOf(nodes: seq<Callback>): (ids: seq<nat>)
    ensures |ids| == |nodes|
  {
    seq(|nodes|, i requires 0 <= i < |nodes| => nodes[i].id)
  }

  class EventLoop {
    var first: Callback?
    var sequence: nat
    var running: bool
    var functions: map<nat, Function>
    var stack: seq<Value>
    ghost var nodes: seq<Callback>

    constructor ()
      ensures Ready() && Value() == NO_REGISTRY
    {
      first, sequence, running, functions, stack, nodes := null, 0, false, map[], [], [];
    }

    ghost function Value(): Registry
      reads this
    {
      Registry(IdsOf(nodes), functions, sequence, running)
    }

    ghost predicate Ready()
      reads this, nodes
    {
      Linked(first, nodes) && Valid(Value())
    }

    /** Distinct ids make distinct nodes. */
    lemma NodesDistinct(i: nat, j: nat)
      requires Valid(Value()) && i < |nodes| && j < |nodes| && nodes[i] == nodes[j]
      ensures i == j
    {
      assert Value().ids[i] == nodes[i].id == Value().ids[j];
    }

    /** `eventloop` up to the evaluation of the program: a heap whose stash holds an empty
        `_callbacks` object. */
    method Start()
      requires Ready() && !running
      modifies this
      ensures Ready() && Value() == After(old(Value()), Started) && nodes == old(nodes)
    {
      running, functions, stack := true, map[], [];
    }

    // The Duktape calls in use, each with its effect on the value stack.

    method PushCallbacks()
      modifies this`stack
      ensures stack == old(stack) + [Stash, Callbacks]
    {
      stack := stack + [Stash];
      stack := stack + [Callbacks];
    }

    method Pop(n: nat)
      requires n <= |stack|
      modifies this`stack
      ensures stack == old(stack)[..|old(stack)| - n]
    {
      stack := stack[..|stack| - n];
    }

    /** `duk_put_prop` of the value on top under the key below it. */
    method PutProp()
      requires |stack| >= 3 && stack[|stack| - 3] == Callbacks && stack[|stack| - 2].Number? && stack[|stack| - 1].Func?
      modifies this`stack, this`functions
      ensures stack == old(stack)[..|old(stack)| - 2]
      ensures functions == old(functions)[old(stack)[|old(stack)| - 2].n := old(stack)[|old(stack)| - 1].f]
    {
      functions := functions[stack[|stack| - 2].n := stack[|stack| - 1].f];
      stack := stack[..|stack| - 2];
    }

    /** `duk_del_prop` of the key on top. */
    method DelProp()
      requires |stack| >= 2 && stack[|stack| - 2] == Callbacks && stack[|stack| - 1].Number?
      modifies this`stack, this`functions
      ensures stack == old(stack)[..|old(stack)| - 1]
      ensures functions == old(functions) - {old(stack)[|old(stack)| - 1].n}
    {
      functions := functions - {stack[|stack| - 1].n};
      stack := stack[..|stack| - 1];
    }

    /** `duk_get_prop`: the key on top gives way to the value, or to undefined. */
    method GetProp() returns (found: bool)
      requires |stack| >= 2 && stack[|stack| - 2] == Callbacks && stack[|stack| - 1].Number?
      modifies this`stack
      ensures var id := old(stack)[|old(stack)| - 1].n;
              && found == (id in functions)
              && stack == old(stack)[..|old(stack)| - 1] + [if found then Func(functions[id]) else Undefined]
    {
      var id := stack[|stack| - 1].n;
      found := id in functions;
      stack := stack[..|stack| - 1] + [if found then Func(functions[id]) else Undefined];
    }

    /** The function at `from` registered under the id; the value stack ends as it was. */
    method RegisterFunction(id: nat, from: nat)
      requires from < |stack| && stack[from].Func?
      modifies this`stack, this`functions
      ensures stack == old(stack) && functions == old(functions)[id := old(stack[from].f)]
    {
      ghost var was := stack;
      var f := stack[from];
      PushCallbacks();
      stack := stack + [Number(id)];
      stack := stack + [f];
      PutProp();
      Pop(1);
      Pop(1);
      assert stack == was;
    }

    /** The function of the id taken out again; the value stack ends as it was. */
    method UnregisterFunction(id: nat)
      modifies this`stack, this`functions
      ensures stack == old(stack) && functions == old(functions) - {id}
    {
      ghost var was := stack;
      PushCallbacks();
      stack := stack + [Number(id)];
      DelProp();
      Pop(2);
      assert stack == was;
    }

    /** Linking a callback in front of the list. */
    method LinkFront(callback: Callback)
      requires Linked(first, nodes) && callback !in nodes && callback.next == first && callback.prev == null
      requires forall i, j :: 0 <= i < j < |nodes| ==> nodes[i] != nodes[j]
      modifies this`first, this`nodes, nodes`prev
      ensures nodes == [callback] + old(nodes) && Linked(first, nodes)
    {
      if first != null { first.prev := callback; }
      first := callback;
      ghost var was := nodes;
      nodes := [callback] + nodes;
      LinkedInFront(callback, was);
    }

    /** Unlinking a callback. */
    method Unlink(callback: Callback, ghost k: nat)
      requires Linked(first, nodes) && k < |nodes| && nodes[k] == callback
      requires forall i, j :: 0 <= i < j < |nodes| ==> nodes[i] != nodes[j]
      modifies this`first, this`nodes, nodes
      ensures nodes == old(nodes)[..k] + old(nodes)[k + 1..] && Linked(first, nodes)
    {
      if callback.prev != null {
        callback.prev.next := callback.next;
      } else {
        first := callback.next;
      }
      if callback.next != null {
        callback.next.prev := callback.prev;
      }
      ghost var was := nodes;
      nodes := was[..k] + was[k + 1..];
      LinkedWithout(was, k);
    }

    /** `eventloop_callback_create_from_context` for the function at `from` on the stack. */
    method Create(from: nat) returns (callback: Callback)
      requires Ready() && running && from < |stack| && stack[from].Func?
      modifies this, nodes
      ensures Ready() && fresh(callback) && nodes == [callback] + old(nodes) && stack == old(stack)
      ensures Value() == After(old(Value()), Created(old(stack[from].f))) && callback.id == old(sequence)
    {
      hide Valid;
      ghost var before := Value();
      AllDistinct();
      callback := new Callback(sequence, first);
      sequence := sequence + 1;
      ghost var was := nodes;
      LinkFront(callback);
      RegisterFunction(callback.id, from);
      assert IdsOf(nodes) == [callback.id] + IdsOf(was);
      EventKeeps(before, Created(stack[from].f));
    }

    /** `eventloop_callback_destroy`. */
    method Destroy(callback: Callback, ghost k: nat)
      requires Ready() && running && k < |nodes| && nodes[k] == callback
      modifies this, nodes
      ensures Ready() && stack == old(stack) && nodes == old(nodes)[..k] + old(nodes)[k + 1..]
      ensures Value() == After(old(Value()), Destroyed(k))
    {
      hide Valid;
      ghost var before := Value();
      ghost var was := nodes;
      AllDistinct();
      UnregisterFunction(callback.id);
      Unlink(callback, k);
      assert IdsOf(nodes) == Without(IdsOf(was), k);
      EventKeeps(before, Destroyed(k));
    }

    lemma AllDistinct()
      requires Valid(Value())
      ensures forall i, j :: 0 <= i < j < |nodes| ==> nodes[i] != nodes[j]
    {
      forall i, j | 0 <= i < j < |nodes|
        ensures nodes[i] != nodes[j]
      {
        if nodes[i] == nodes[j] { NodesDistinct(i, j); }
      }
    }

    /** Links after a new head. */
    lemma LinkedInFront(callback: Callback, was: seq<Callback>)
      requires callback !in was && first == callback && nodes == [callback] + was
      requires callback.next == (if was == [] then null else was[0]) && callback.prev == null
      requires forall i {:trigger was[i].next} :: 0 <= i < |was| ==>
                 was[i].next == if i + 1 < |was| then was[i + 1] else null
      requires forall i {:trigger was[i].prev} :: 0 <= i < |was| ==>
                 was[i].prev == if i > 0 then was[i - 1] else callback
      ensures Linked(first, nodes)
    {
      forall i | 0 <= i < |nodes|
        ensures nodes[i].next == if i + 1 < |nodes| then nodes[i + 1] else null
        ensures nodes[i].prev == if i > 0 then nodes[i - 1] else null
      {
        if i > 0 { assert nodes[i] == was[i - 1]; }
      }
    }

    /** Links around the gap left by node `k`. */
    lemma LinkedWithout(was: seq<Callback>, k: nat)
      requires k < |was| && nodes == was[..k] + was[k + 1..]
      requires first == if k > 0 then was[0] else if |was| > 1 then was[1] else null
      requires forall i {:trigger was[i].next} :: 0 <= i < |was| && i != k ==>
                 was[i].next == if i + 1 == k then (if k + 1 < |was| then was[k + 1] else null)
                                else if i + 1 < |was| then was[i + 1] else null
      requires forall i {:trigger was[i].prev} :: 0 <= i < |was| && i != k ==>
                 was[i].prev == if i == k + 1 then (if k > 0 then was[k - 1] else null)
                                else if i > 0 then was[i - 1] else null
      ensures Linked(first, nodes)
    {
      forall i | 0 <= i < |nodes|
        ensures nodes[i].next == if i + 1 < |nodes| then nodes[i + 1] else null
        ensures nodes[i].prev == if i > 0 then nodes[i - 1] else null
      {
        assert nodes[i] == if i < k then was[i] else was[i + 1];
      }
    }

    /** One round of the dispatch loop for the callback with the id: the function called,
        if any.  `args` are the values its argument handler pushes. */
    method Dispatch(id: nat, args: seq<Value>) returns (called: Option<Function>)
      requires Ready() && stack != [] && stack[|stack| - 1] == Callbacks
      modifies this`stack
      ensures Ready() && Value() == old(Value()) && stack == old(stack)
      ensures called == if id in functions then Some(functions[id]) else None
    {
      stack := stack + [Number(id)];
      var found := GetProp();
      called := None;
      if found {
        called := Some(stack[|stack| - 1].f);
        var top := |stack|;
        stack := stack + args;
        var argCount := |stack| - top;
        stack := stack[..|stack| - argCount - 1] + [Other];
      }
      stack := stack[..|stack| - 1];
    }

    /** `clear_eventloop`: the list is walked and freed, the heap destroyed. */
    method Clear() returns (ghost freed: seq<Callback>)
      requires Ready()
      modifies this
      ensures Ready() && Value() == After(old(Value()), Cleared) && freed == old(nodes)
    {
      var ptr := first;
      freed := [];
      while ptr != null
        invariant |freed| <= |nodes| && freed == nodes[..|freed|]
        invariant ptr == if |freed| < |nodes| then nodes[|freed|] else null
        decreases |nodes| - |freed|
      {
        freed := freed + [ptr];
        ptr := ptr.next;
      }
      first, nodes, functions, stack := null, [], map[], [];
      if running {
        running := false;
        sequence := 0;
      }
      assert IdsOf(nodes) == [];
    }
  }

  // ---------------------------------------------------------------- loading modules

  datatype Module = Module(keyword: string, isLoaded: bool)

  /** The registered modules, newest first, and the keywords of the loaded ones. */
  datatype Modules = Modules(registered: seq<Module>, loaded: seq<string>)

  function Lookup(registered: seq<Module>, name: string): (k: nat)
    ensures k <= |registered| && (k < |registered| ==> registered[k].keyword == name)
    ensures forall j :: 0 <= j < k ==> registered[j].keyword != name
  {
    if registered == [] then 0 else if registered[0].keyword == name then 0 else 1 + Lookup(registered[1..], name)
  }

  /** `eventloop_native_load_module`: the first module with the name joins the loaded
      modules once, if its initialisation succeeds. */
  function Loaded(m: Modules, name: string, initialises: bool): (Modules, bool) {
    var k := Lookup(m.registered, name);
    if k == |m.registered| || !initialises then (m, false)
    else if m.registered[k].isLoaded then (m, true)
    else (Modules(m.registered[k := Module(name, true)], [name] + m.loaded), true)
  }

  method LoadModule(m: Modules, name: string, initialises: bool) returns (m': Modules, ok: bool)
    ensures (m', ok) == Loaded(m, name, initialises)
  {
    var i := 0;
    while i < |m.registered| && m.registered[i].keyword != name
      invariant 0 <= i <= |m.registered|
      invariant Lookup(m.registered, name) == i + Lookup(m.registered[i..], name)
    {
      i := i + 1;
    }
    if i == |m.registered| { return m, false; }
    if !initialises { return m, false; }
    m', ok := m, true;
    if !m.registered[i].isLoaded {
      m' := Modules(m.registered[i := Module(name, true)], [name] + m.loaded);
    }
  }

  /** The loaded modules are the marked ones, each once, under distinct keywords. */
  ghost predicate OncePerModule(m: Modules) {
    && (forall i, j :: 0 <= i < j < |m.registered| ==> m.registered[i].keyword != m.registered[j].keyword)
    && (forall i, j :: 0 <= i < j < |m.loaded| ==> m.loaded[i] != m.loaded[j])
    && (forall k :: 0 <= k < |m.registered| ==> (m.registered[k].isLoaded <==> m.registered[k].keyword in m.loaded))
    && (forall n :: n in m.loaded ==> exists k :: 0 <= k < |m.registered| && m.registered[k].keyword == n)
  }

  /** A module is loaded if and only if one is registered under the name and initialises; it
      joins the loaded ones in front when it is not among them. */
  lemma LoadExact(m: Modules, name: string, initialises: bool)
    requires OncePerModule(m)
    ensures var (r, ok) := Loaded(m, name, initialises);
            && (ok <==> initialises && exists k :: 0 <= k < |m.registered| && m.registered[k].keyword == name)
            && r.loaded == (if ok && name !in m.loaded then [name] else []) + m.loaded
            && |r.registered| == |m.registered|
            && forall k :: 0 <= k < |m.registered| ==> r.registered[k].keyword == m.registered[k].keyword
  {
    assert [] + m.loaded == m.loaded;
  }

  /** However often a module is required, its procedure is called once per round. */
  lemma LoadedOnce(m: Modules, name: string, initialises: bool)
    requires OncePerModule(m)
    ensures OncePerModule(Loaded(m, name, initialises).0)
  {
    var r := Loaded(m, name, initialises).0;
    var k := Lookup(m.registered, name);
    if r != m {
      assert name !in m.loaded;
      assert forall j :: 0 <= j < |m.registered| ==> r.registered[j].keyword == m.registered[j].keyword;
      forall n | n in r.loaded
        ensures exists j :: 0 <= j < |r.registered| && r.registered[j].keyword == n
      {
        if n == name {
          assert r.registered[k].keyword == n;
        } else {
          var j :| 0 <= j < |m.registered| && m.registered[j].keyword == n;
          assert r.registered[j].keyword == n;
        }
      }
    }
  }
}
