/**
 The LogMixer node: a table of filters (each with a buffer of logged
 records) in registration order, a table of bindings per filter id, and the
 three operations that change them: filter, send and log.

 Callbacks are opaque. A condition is one of three callback shapes, by the
 number of arguments it takes; an action is identified by a name and its
 shape. Calling an action is recorded as a Firing in the trace that Log
 returns, in the order the node makes the calls.
 */
module Mixer {
  import opened Wrappers
  import opened Hashes
  import opened Codec

  type Id = Key

  /** What log stores: the merged record, or nil when log was called with no arguments. */
  type Entry = Option<Record>

  type Buffer = seq<Entry>

  /** The number of arguments a callback takes, which picks what it is passed. */
  datatype Arity = Nullary | Unary | Binary

  /** The arguments of one callback call: none, buffer.last, or buffer.last and the buffer. */
  datatype Args = NoArgs | LastOnly(last: Entry) | LastAndBuffer(last: Entry, buffer: Buffer)

  /** A condition callback of each of the three shapes. */
  datatype Condition =
    | Cond0(f0: () -> bool)
    | Cond1(f1: Entry -> bool)
    | Cond2(f2: (Entry, Buffer) -> bool)

  /** An action callback: its identity and its shape. */
  datatype Action = Action(name: string, arity: Arity)

  /** One registration made by send; `blk` is nil when send was given no block. */
  datatype Binding = Binding(cond: Condition, blk: Option<Action>)

  /** The argument of send naming its targets: one id, or an array of them. */
  datatype Ids = One(id: Id) | Many(ids: seq<Id>)

  /** A binding, by the filter id it hangs on and its index in that id's bindings. */
  datatype Pos = Pos(filter: Id, binding: nat)

  /** One call of an action: where its binding is, what was called, with what. */
  datatype Firing = Firing(at: Pos, action: Action, args: Args)

  /** The entry of @filters for one id. `period` and `blk` are stored and never read. */
  datatype FilterState = FilterState(period: Option<int>, blk: Option<Action>, buffer: Buffer)

  datatype Node = Node(filters: Hash<FilterState>, sends: map<Id, seq<Binding>>)

  /**
   The result of log: the node afterwards, the actions called, and the
   binding at which NoMethodError was raised, if any (a binding without a
   block whose condition held; the rest of the call is abandoned).
   */
  datatype Outcome = Outcome(node: Node, trace: seq<Firing>, failure: Option<Pos>)

  /** The firings of a stretch of the call, and where it raised, if it did. */
  datatype Run = Run(trace: seq<Firing>, failure: Option<Pos>)

  predicate WellFormed(n: Node) {
    Valid(n.filters)
  }

  /** LogMixer.new: no filters, no bindings. */
  function Init(): (n: Node)
    ensures WellFormed(n) && n.filters.keys == [] && n.sends == map[]
  {
    Node(Empty(), map[])
  }

  /** buffer.last: the newest entry, or nil for an empty buffer. */
  function Last(buffer: Buffer): Entry {
    if buffer == [] then None else buffer[|buffer| - 1]
  }

  /** The argument list a callback of arity a receives for a buffer. */
  function ArgsFor(a: Arity, buffer: Buffer): (r: Args)
    ensures r.NoArgs? <==> a == Nullary
    ensures r.LastOnly? <==> a == Unary
    ensures !r.NoArgs? ==> r.last == Last(buffer)
    ensures r.LastAndBuffer? ==> r.buffer == buffer
  {
    match a
    case Nullary => NoArgs
    case Unary => LastOnly(Last(buffer))
    case Binary => LastAndBuffer(Last(buffer), buffer)
  }

  /** Calling a condition with the arguments its shape takes. */
  function Holds(c: Condition, buffer: Buffer): bool {
    match c
    case Cond0(f) => f()
    case Cond1(f) => f(Last(buffer))
    case Cond2(f) => f(Last(buffer), buffer)
  }

  /** The condition send uses when given none: a lambda that is always true. */
  function Default(): (c: Condition)
    ensures forall buffer :: Holds(c, buffer)
  {
    Cond0(() => true)
  }

  /** @sends[id], with nil read as no bindings. */
  function Bindings(sends: map<Id, seq<Binding>>, id: Id): seq<Binding> {
    if id in sends then sends[id] else []
  }

  /**
   filter(id, period, &blk): installs a fresh empty buffer for id, replacing
   any earlier one; a re-registered id keeps its place in the filter order.
   */
  function Filter(n: Node, id: Id, period: Option<int>, blk: Option<Action>): (r: Node)
    requires WellFormed(n)
    ensures WellFormed(r)
    ensures r.sends == n.sends
    ensures Get(r.filters, id) == Some(FilterState(period, blk, []))
    ensures forall x :: x != id ==> Get(r.filters, x) == Get(n.filters, x)
    ensures id in n.filters.vals ==> r.filters.keys == n.filters.keys
    ensures id !in n.filters.vals ==> r.filters.keys == n.filters.keys + [id]
  {
    Node(Put(n.filters, id, FilterState(period, blk, [])), n.sends)
  }

  /** The ids send registers on: a single id is wrapped into a list. */
  function Targets(ids: Ids): seq<Id> {
    match ids
    case One(id) => [id]
    case Many(l) => l
  }

  /** How often x occurs in l. */
  function Count(l: seq<Id>, x: Id): nat {
    if l == [] then 0 else (if l[0] == x then 1 else 0) + Count(l[1..], x)
  }

  /** k copies of x. */
  function Repeat<T>(x: T, k: nat): (r: seq<T>)
    ensures |r| == k && forall i :: 0 <= i < k ==> r[i] == x
  {
    if k == 0 then [] else [x] + Repeat(x, k - 1)
  }

  /** Appends b to the bindings of every id of l, first to last. */
  function AddBindings(sends: map<Id, seq<Binding>>, l: seq<Id>, b: Binding): (r: map<Id, seq<Binding>>)
    ensures forall x :: x in r <==> x in sends || x in l
    ensures forall x :: Bindings(r, x) == Bindings(sends, x) + Repeat(b, Count(l, x))
    decreases |l|
  {
    if l == [] then sends
    else
      var s := sends[l[0] := Bindings(sends, l[0]) + [b]];
      var r := AddBindings(s, l[1..], b);
      AddBindingsStep(sends, s, r, l, b);
      r
  }

  /** The step of AddBindings: b added for l[0], then for the rest of l. */
  lemma AddBindingsStep(sends: map<Id, seq<Binding>>, s: map<Id, seq<Binding>>, r: map<Id, seq<Binding>>, l: seq<Id>, b: Binding)
    requires l != [] && s == sends[l[0] := Bindings(sends, l[0]) + [b]]
    requires forall x :: x in r <==> x in s || x in l[1..]
    requires forall x :: Bindings(r, x) == Bindings(s, x) + Repeat(b, Count(l[1..], x))
    ensures forall x :: x in r <==> x in sends || x in l
    ensures forall x :: Bindings(r, x) == Bindings(sends, x) + Repeat(b, Count(l, x))
  {
    InConsTail(l);
    forall x
      ensures Bindings(r, x) == Bindings(sends, x) + Repeat(b, Count(l, x))
    {
      var c := Count(l[1..], x);
      if x == l[0] {
        assert Count(l, x) == c + 1;
        assert Bindings(s, x) == Bindings(sends, x) + [b];
        assert Repeat(b, c + 1) == [b] + Repeat(b, c);
      } else {
        assert Count(l, x) == c;
        assert Bindings(s, x) == Bindings(sends, x);
      }
    }
  }

  /** Membership in a non-empty sequence: the head or the tail. */
  lemma InConsTail<T>(l: seq<T>)
    requires l != []
    ensures forall x :: x in l <==> x == l[0] || x in l[1..]
  {
    assert l == [l[0]] + l[1..];
  }

  /**
   send(ids, cond, &blk): adds one binding (cond, or the always-true default,
   with blk) at the end of the bindings of each listed id, once per listing;
   filters and every other id's bindings are untouched.
   */
  function Send(n: Node, ids: Ids, cond: Option<Condition>, blk: Option<Action>): (r: Node)
    ensures r.filters == n.filters
    ensures forall x :: x in r.sends <==> x in n.sends || x in Targets(ids)
    ensures forall x :: Bindings(r.sends, x) ==
              Bindings(n.sends, x) + Repeat(Binding(cond.GetOr(Default()), blk), Count(Targets(ids), x))
  {
    Node(n.filters, AddBindings(n.sends, Targets(ids), Binding(cond.GetOr(Default()), blk)))
  }

  /** The binding at index c of bs, with buffer buf, calls its action. */
  predicate FiresAt(bs: seq<Binding>, c: nat, buf: Buffer) {
    c < |bs| && Holds(bs[c].cond, buf) && bs[c].blk.Some?
  }

  /** The binding at index c of bs, with buffer buf, raises: its condition holds and it has no block. */
  predicate FailsAt(bs: seq<Binding>, c: nat, buf: Buffer) {
    c < |bs| && Holds(bs[c].cond, buf) && bs[c].blk.None?
  }

  /** The call the binding at index c makes. */
  function Called(id: Id, bs: seq<Binding>, c: nat, buf: Buffer): Firing
    requires FiresAt(bs, c, buf)
  {
    var a := bs[c].blk.value;
    Firing(Pos(id, c), a, ArgsFor(a.arity, buf))
  }

  /**
   What a run over the bindings bs of filter id from index b on, with buffer
   buf, must be: every call is one of a binding from b on whose condition
   holds, the calls go up the binding order, a raise is at a binding from b on
   that fails and after every call, the first failing binding from b on
   raises, and every firing binding before the raise is called.
   */
  ghost predicate FireSpec(id: Id, bs: seq<Binding>, b: nat, buf: Buffer, r: Run) {
    && CallsOf(id, bs, b, buf, r.trace)
    && Increasing(r.trace)
    && RaiseOf(id, bs, b, buf, r)
    && RaisesFirst(bs, b, buf, r)
    && CallsAll(id, bs, b, buf, r)
  }

  /** Every call of t is the call of a binding of filter id from index b on that fires. */
  ghost predicate CallsOf(id: Id, bs: seq<Binding>, b: nat, buf: Buffer, t: seq<Firing>) {
    forall i :: 0 <= i < |t| ==>
      && t[i].at.filter == id && b <= t[i].at.binding
      && FiresAt(bs, t[i].at.binding, buf)
      && t[i] == Called(id, bs, t[i].at.binding, buf)
  }

  /** The calls of t go strictly up the binding order. */
  ghost predicate Increasing(t: seq<Firing>) {
    forall i, j :: 0 <= i < j < |t| ==> t[i].at.binding < t[j].at.binding
  }

  /** A raise is at a failing binding of filter id from b on, after every call. */
  ghost predicate RaiseOf(id: Id, bs: seq<Binding>, b: nat, buf: Buffer, r: Run) {
    r.failure.Some? ==>
      && r.failure.value.filter == id && b <= r.failure.value.binding
      && FailsAt(bs, r.failure.value.binding, buf)
      && forall i :: 0 <= i < |r.trace| ==> r.trace[i].at.binding < r.failure.value.binding
  }

  /** No failing binding from b on comes before the raise. */
  ghost predicate RaisesFirst(bs: seq<Binding>, b: nat, buf: Buffer, r: Run) {
    forall c :: b <= c && FailsAt(bs, c, buf) ==> r.failure.Some? && r.failure.value.binding <= c
  }

  /** Every firing binding from b on before the raise is called. */
  ghost predicate CallsAll(id: Id, bs: seq<Binding>, b: nat, buf: Buffer, r: Run) {
    forall c :: b <= c && FiresAt(bs, c, buf) && (r.failure.None? || c < r.failure.value.binding) ==>
      Called(id, bs, c, buf) in r.trace
  }

  /**
   The bindings bs of filter id from index b on, in order, with its buffer
   buf: each whose condition holds calls its action, until one without a
   block raises.
   */
  function Fire(id: Id, bs: seq<Binding>, b: nat, buf: Buffer): (r: Run)
    requires b <= |bs|
    ensures FireSpec(id, bs, b, buf, r)
    decreases |bs| - b
  {
    if b == |bs| then Run([], None)
    else if !Holds(bs[b].cond, buf) then
      var rest := Fire(id, bs, b + 1, buf);
      FireSkip(id, bs, b, buf, rest);
      rest
    else if bs[b].blk.None? then Run([], Some(Pos(id, b)))
    else
      var rest := Fire(id, bs, b + 1, buf);
      FireCall(id, bs, b, buf, rest);
      Run([Called(id, bs, b, buf)] + rest.trace, rest.failure)
  }

  /** A binding whose condition does not hold neither calls nor raises. */
  lemma FireSkip(id: Id, bs: seq<Binding>, b: nat, buf: Buffer, rest: Run)
    requires b < |bs| && !Holds(bs[b].cond, buf)
    requires FireSpec(id, bs, b + 1, buf, rest)
    ensures FireSpec(id, bs, b, buf, rest)
  {
  }

  /** A binding that fires is called before the calls of the bindings after it. */
  lemma FireCall(id: Id, bs: seq<Binding>, b: nat, buf: Buffer, rest: Run)
    requires b < |bs| && FiresAt(bs, b, buf)
    requires FireSpec(id, bs, b + 1, buf, rest)
    ensures FireSpec(id, bs, b, buf, Run([Called(id, bs, b, buf)] + rest.trace, rest.failure))
  {
    var t := [Called(id, bs, b, buf)] + rest.trace;
    CallsOfCons(id, bs, b, buf, rest.trace);
    IncreasingCons(id, bs, b, buf, rest.trace);
    RaiseOfCons(id, bs, b, buf, rest);
    CallsAllCons(id, bs, b, buf, rest);
  }

  lemma CallsOfCons(id: Id, bs: seq<Binding>, b: nat, buf: Buffer, t: seq<Firing>)
    requires b < |bs| && FiresAt(bs, b, buf) && CallsOf(id, bs, b + 1, buf, t)
    ensures CallsOf(id, bs, b, buf, [Called(id, bs, b, buf)] + t)
  {
    var u := [Called(id, bs, b, buf)] + t;
    assert forall i :: 1 <= i < |u| ==> u[i] == t[i - 1];
  }

  lemma IncreasingCons(id: Id, bs: seq<Binding>, b: nat, buf: Buffer, t: seq<Firing>)
    requires b < |bs| && FiresAt(bs, b, buf) && CallsOf(id, bs, b + 1, buf, t) && Increasing(t)
    ensures Increasing([Called(id, bs, b, buf)] + t)
  {
    var u := [Called(id, bs, b, buf)] + t;
    assert forall i :: 1 <= i < |u| ==> u[i] == t[i - 1];
  }

  lemma RaiseOfCons(id: Id, bs: seq<Binding>, b: nat, buf: Buffer, rest: Run)
    requires b < |bs| && FiresAt(bs, b, buf) && RaiseOf(id, bs, b + 1, buf, rest)
    ensures RaiseOf(id, bs, b, buf, Run([Called(id, bs, b, buf)] + rest.trace, rest.failure))
  {
    var u := [Called(id, bs, b, buf)] + rest.trace;
    assert forall i :: 1 <= i < |u| ==> u[i] == rest.trace[i - 1];
  }

  lemma CallsAllCons(id: Id, bs: seq<Binding>, b: nat, buf: Buffer, rest: Run)
    requires b < |bs| && FiresAt(bs, b, buf) && CallsAll(id, bs, b + 1, buf, rest)
    ensures CallsAll(id, bs, b, buf, Run([Called(id, bs, b, buf)] + rest.trace, rest.failure))
  {
    var u := [Called(id, bs, b, buf)] + rest.trace;
    assert forall x :: x in rest.trace ==> x in u;
  }

  /** The buffer of filter id once log has appended data to it. */
  function Appended(n: Node, data: Entry, id: Id): (buf: Buffer)
    requires id in n.filters.vals
    ensures Last(buf) == data
  {
    n.filters.vals[id].buffer + [data]
  }

  /** The place of id in the filter order (past the end for an id without a filter). */
  function Rank(n: Node, id: Id): nat {
    if id in n.filters.keys then FirstIndex(n.filters.keys, id) else |n.filters.keys|
  }

  /** x comes before y in the order log visits bindings: by filter, then by binding. */
  predicate Before(n: Node, x: Pos, y: Pos) {
    Rank(n, x.filter) < Rank(n, y.filter) || (x.filter == y.filter && x.binding < y.binding)
  }

  /** In log(data), the binding at x calls its action. */
  predicate LogFires(n: Node, data: Entry, x: Pos) {
    x.filter in n.filters.vals && FiresAt(Bindings(n.sends, x.filter), x.binding, Appended(n, data, x.filter))
  }

  /** In log(data), the binding at x raises NoMethodError, if log gets that far. */
  predicate LogFails(n: Node, data: Entry, x: Pos) {
    x.filter in n.filters.vals && FailsAt(Bindings(n.sends, x.filter), x.binding, Appended(n, data, x.filter))
  }

  /** The call the binding at x makes in log(data). */
  function LogCall(n: Node, data: Entry, x: Pos): Firing
    requires LogFires(n, data, x)
  {
    Called(x.filter, Bindings(n.sends, x.filter), x.binding, Appended(n, data, x.filter))
  }

  /**
   The bindings of the filters from position p of the filter order on, with
   data appended to each filter's buffer: filter by filter, each filter's
   bindings in order, until a binding without a block raises.
   */
  function Sweep(n: Node, data: Entry, p: nat): Run
    requires WellFormed(n) && p <= |n.filters.keys|
    decreases |n.filters.keys| - p
  {
    if p == |n.filters.keys| then
      Run([], None)
    else
      var id := n.filters.keys[p];
      var here := Fire(id, Bindings(n.sends, id), 0, Appended(n, data, id));
      if here.failure.Some? then
        here
      else
        var rest := Sweep(n, data, p + 1);
        Run(here.trace + rest.trace, rest.failure)
  }

  /** Every call of t is one log(data) makes, on a filter of rank p or later. */
  predicate CallsFrom(n: Node, data: Entry, p: nat, t: seq<Firing>) {
    forall i :: 0 <= i < |t| ==>
      LogFires(n, data, t[i].at) && p <= Rank(n, t[i].at.filter) && t[i] == LogCall(n, data, t[i].at)
  }

  /** Every call Sweep makes is a call of a binding from position p on whose condition holds. */
  lemma {:induction false} SweepSound(n: Node, data: Entry, p: nat)
    requires WellFormed(n) && p <= |n.filters.keys|
    ensures CallsFrom(n, data, p, Sweep(n, data, p).trace)
    ensures Sweep(n, data, p).failure.Some? ==>
              var x := Sweep(n, data, p).failure.value;
              LogFails(n, data, x) && p <= Rank(n, x.filter)
    decreases |n.filters.keys| - p
  {
    if p < |n.filters.keys| {
      FireSound(n, data, p);
      var id := n.filters.keys[p];
      var here := Fire(id, Bindings(n.sends, id), 0, Appended(n, data, id));
      if here.failure.None? {
        SweepSound(n, data, p + 1);
        var rest := Sweep(n, data, p + 1);
        CallsAppend(n, data, p, here.trace, rest.trace);
        assert Sweep(n, data, p) == Run(here.trace + rest.trace, rest.failure);
      } else {
        assert Sweep(n, data, p) == here;
      }
    }
  }

  /** The bindings of the filter of rank p call and raise as log(data) does there. */
  lemma FireSound(n: Node, data: Entry, p: nat)
    requires WellFormed(n) && p < |n.filters.keys|
    ensures var id := n.filters.keys[p];
      CallsFrom(n, data, p, Fire(id, Bindings(n.sends, id), 0, Appended(n, data, id)).trace)
    ensures var id := n.filters.keys[p];
      var here := Fire(id, Bindings(n.sends, id), 0, Appended(n, data, id));
      here.failure.Some? ==> LogFails(n, data, here.failure.value) && Rank(n, here.failure.value.filter) == p
  {
    RankAt(n, p);
  }

  lemma CallsAppend(n: Node, data: Entry, p: nat, a: seq<Firing>, b: seq<Firing>)
    requires CallsFrom(n, data, p, a) && CallsFrom(n, data, p + 1, b)
    ensures CallsFrom(n, data, p, a + b)
  {
    forall i | 0 <= i < |a + b|
      ensures var f := (a + b)[i];
        LogFires(n, data, f.at) && p <= Rank(n, f.at.filter) && f == LogCall(n, data, f.at)
    {
      if i < |a| {
        assert (a + b)[i] == a[i];
      } else {
        assert (a + b)[i] == b[i - |a|];
      }
    }
  }

  /** Calls in visiting order: by filter rank, then by binding index. */
  predicate InOrder(n: Node, t: seq<Firing>) {
    forall i, j :: 0 <= i < j < |t| ==> Before(n, t[i].at, t[j].at)
  }

  /** Sweep calls bindings in visiting order. */
  lemma {:induction false} SweepOrdered(n: Node, data: Entry, p: nat)
    requires WellFormed(n) && p <= |n.filters.keys|
    ensures InOrder(n, Sweep(n, data, p).trace)
    decreases |n.filters.keys| - p
  {
    if p < |n.filters.keys| {
      FireOrdered(n, data, p);
      var id := n.filters.keys[p];
      var here := Fire(id, Bindings(n.sends, id), 0, Appended(n, data, id));
      if here.failure.None? {
        SweepOrdered(n, data, p + 1);
        SweepSound(n, data, p + 1);
        var rest := Sweep(n, data, p + 1);
        InOrderAppend(n, here.trace, rest.trace, p);
        assert Sweep(n, data, p) == Run(here.trace + rest.trace, rest.failure);
      } else {
        assert Sweep(n, data, p) == here;
      }
    }
  }

  /** Every call of t is on the filter of rank p. */
  predicate OnRank(n: Node, p: nat, t: seq<Firing>) {
    forall i :: 0 <= i < |t| ==> Rank(n, t[i].at.filter) == p
  }

  /** The calls on the filter of rank p are on that filter and in visiting order. */
  lemma FireOrdered(n: Node, data: Entry, p: nat)
    requires WellFormed(n) && p < |n.filters.keys|
    ensures var id := n.filters.keys[p];
      var t := Fire(id, Bindings(n.sends, id), 0, Appended(n, data, id)).trace;
      InOrder(n, t) && OnRank(n, p, t)
  {
    RankAt(n, p);
  }

  /** The calls on the filter of rank p, then calls on later filters, are in visiting order. */
  lemma InOrderAppend(n: Node, a: seq<Firing>, b: seq<Firing>, p: nat)
    requires InOrder(n, a) && InOrder(n, b) && OnRank(n, p, a)
    requires forall i :: 0 <= i < |b| ==> p < Rank(n, b[i].at.filter)
    ensures InOrder(n, a + b)
  {
    var t := a + b;
    forall i, j | 0 <= i < j < |t|
      ensures Before(n, t[i].at, t[j].at)
    {
      if j < |a| {
        assert t[i] == a[i] && t[j] == a[j];
      } else if i < |a| {
        assert t[i] == a[i] && t[j] == b[j - |a|];
      } else {
        assert t[i] == b[i - |a|] && t[j] == b[j - |a|];
      }
    }
  }

  /** Calls on the filter of rank p, then calls before x, all come before x when x is on a later filter. */
  lemma AllBeforeAppend(n: Node, a: seq<Firing>, b: seq<Firing>, x: Pos, p: nat)
    requires OnRank(n, p, a)
    requires p < Rank(n, x.filter)
    requires forall i :: 0 <= i < |b| ==> Before(n, b[i].at, x)
    ensures forall i :: 0 <= i < |a + b| ==> Before(n, (a + b)[i].at, x)
  {
    forall i | 0 <= i < |a + b|
      ensures Before(n, (a + b)[i].at, x)
    {
      if i < |a| {
        assert (a + b)[i] == a[i];
      } else {
        assert (a + b)[i] == b[i - |a|];
      }
    }
  }

  /** Every call Sweep makes comes before the binding where it raises. */
  lemma {:induction false} SweepFailureLast(n: Node, data: Entry, p: nat)
    requires WellFormed(n) && p <= |n.filters.keys|
    ensures Sweep(n, data, p).failure.Some? ==>
              forall i :: 0 <= i < |Sweep(n, data, p).trace| ==>
                Before(n, Sweep(n, data, p).trace[i].at, Sweep(n, data, p).failure.value)
    decreases |n.filters.keys| - p
  {
    if p < |n.filters.keys| {
      var id := n.filters.keys[p];
      var here := Fire(id, Bindings(n.sends, id), 0, Appended(n, data, id));
      if here.failure.None? {
        FireOrdered(n, data, p);
        SweepFailureLast(n, data, p + 1);
        SweepSound(n, data, p + 1);
        var rest := Sweep(n, data, p + 1);
        assert Sweep(n, data, p) == Run(here.trace + rest.trace, rest.failure);
        if rest.failure.Some? {
          AllBeforeAppend(n, here.trace, rest.trace, rest.failure.value, p);
        }
      } else {
        FireBefore(n, id, Bindings(n.sends, id), Appended(n, data, id), here);
        assert Sweep(n, data, p) == here;
      }
    }
  }

  /** A raise of one filter comes after every call that filter made before it. */
  lemma FireBefore(n: Node, id: Id, bs: seq<Binding>, buf: Buffer, r: Run)
    requires CallsOf(id, bs, 0, buf, r.trace) && RaiseOf(id, bs, 0, buf, r)
    ensures r.failure.Some? ==> forall i :: 0 <= i < |r.trace| ==> Before(n, r.trace[i].at, r.failure.value)
  {
  }

  /** Sweep raises at the first binding from position p on that fails, if there is one. */
  lemma {:induction false} SweepFirstFailure(n: Node, data: Entry, p: nat)
    requires WellFormed(n) && p <= |n.filters.keys|
    ensures forall x :: LogFails(n, data, x) && p <= Rank(n, x.filter) ==>
              Sweep(n, data, p).failure.Some? && !Before(n, x, Sweep(n, data, p).failure.value)
    decreases |n.filters.keys| - p
  {
    if p < |n.filters.keys| {
      RankAt(n, p);
      var id := n.filters.keys[p];
      var here := Fire(id, Bindings(n.sends, id), 0, Appended(n, data, id));
      if here.failure.None? {
        SweepFirstFailure(n, data, p + 1);
        SweepSound(n, data, p + 1);
        var rest := Sweep(n, data, p + 1);
        assert Sweep(n, data, p) == Run(here.trace + rest.trace, rest.failure);
      } else {
        assert Sweep(n, data, p) == here;
      }
    }
  }

  /** Sweep calls every binding from position p on whose condition holds, up to where it raises. */
  lemma {:induction false} SweepComplete(n: Node, data: Entry, p: nat)
    requires WellFormed(n) && p <= |n.filters.keys|
    ensures forall x ::
              && LogFires(n, data, x) && p <= Rank(n, x.filter)
              && (Sweep(n, data, p).failure.None? || Before(n, x, Sweep(n, data, p).failure.value))
              ==> LogCall(n, data, x) in Sweep(n, data, p).trace
    decreases |n.filters.keys| - p
  {
    if p < |n.filters.keys| {
      RankAt(n, p);
      var id := n.filters.keys[p];
      var here := Fire(id, Bindings(n.sends, id), 0, Appended(n, data, id));
      if here.failure.None? {
        SweepComplete(n, data, p + 1);
        SweepSound(n, data, p + 1);
        var rest := Sweep(n, data, p + 1);
        assert Sweep(n, data, p) == Run(here.trace + rest.trace, rest.failure);
      } else {
        assert Sweep(n, data, p) == here;
      }
    }
  }

  /** Position p of the filter order holds the one filter of rank p. */
  lemma RankAt(n: Node, p: nat)
    requires WellFormed(n) && p < |n.filters.keys|
    ensures Rank(n, n.filters.keys[p]) == p
    ensures forall id :: id in n.filters.vals && Rank(n, id) == p ==> id == n.filters.keys[p]
    ensures forall id :: id in n.filters.vals ==> Rank(n, id) < |n.filters.keys|
  {
    FirstIndexDistinct(n.filters.keys, p);
  }

  /** Log reached filter id: no binding raised, or the one that raised is on id or a later filter. */
  predicate Reached(n: Node, failure: Option<Pos>, id: Id) {
    failure.None? || Rank(n, id) <= Rank(n, failure.value.filter)
  }

  /**
   log(*datas): merges the arguments (later ones win, nil for none), appends
   the result to the buffer of every filter log reaches, and calls the
   bindings whose condition holds, filter by filter in registration order and
   each filter's bindings in registration order. Bindings on ids without a
   filter are never consulted. A binding without a block whose condition
   holds raises, which abandons the filters after it.
   */
  function Log(n: Node, datas: seq<Record>): (r: Outcome)
    requires WellFormed(n)
    requires forall i :: 0 <= i < |datas| ==> Valid(datas[i])
    ensures WellFormed(r.node) && r.node.sends == n.sends && r.node.filters.keys == n.filters.keys
    ensures forall id :: id in n.filters.vals ==>
              && id in r.node.filters.vals
              && r.node.filters.vals[id].period == n.filters.vals[id].period
              && r.node.filters.vals[id].blk == n.filters.vals[id].blk
              && r.node.filters.vals[id].buffer ==
                   if Reached(n, r.failure, id) then n.filters.vals[id].buffer + [MergeAll(datas)]
                   else n.filters.vals[id].buffer
    ensures forall i :: 0 <= i < |r.trace| ==>
              && LogFires(n, MergeAll(datas), r.trace[i].at)
              && r.trace[i] == LogCall(n, MergeAll(datas), r.trace[i].at)
              && (r.trace[i].args.NoArgs? || r.trace[i].args.last == MergeAll(datas))
    ensures forall i, j :: 0 <= i < j < |r.trace| ==> Before(n, r.trace[i].at, r.trace[j].at)
    ensures r.failure.Some? ==>
              && LogFails(n, MergeAll(datas), r.failure.value)
              && forall i :: 0 <= i < |r.trace| ==> Before(n, r.trace[i].at, r.failure.value)
    ensures forall x :: LogFails(n, MergeAll(datas), x) ==> r.failure.Some? && !Before(n, x, r.failure.value)
    ensures forall x ::
              LogFires(n, MergeAll(datas), x) && (r.failure.None? || Before(n, x, r.failure.value))
              ==> LogCall(n, MergeAll(datas), x) in r.trace
  {
    var data := MergeAll(datas);
    var run := Sweep(n, data, 0);
    SweepSound(n, data, 0);
    SweepOrdered(n, data, 0);
    SweepFailureLast(n, data, 0);
    SweepFirstFailure(n, data, 0);
    SweepComplete(n, data, 0);
    Outcome(Node(Settle(n, data, run.failure), n.sends), run.trace, run.failure)
  }

  /** The filter table after log appended data to the buffer of every filter it reached. */
  function Settle(n: Node, data: Entry, failure: Option<Pos>): Hash<FilterState> {
    var fs := n.filters;
    var vals := map id | id in fs.vals ::
      if Reached(n, failure, id) then fs.vals[id].(buffer := fs.vals[id].buffer + [data]) else fs.vals[id];
    Hash(fs.keys, vals)
  }

  /** On a new mixer, log has no filter to visit: it changes nothing, calls nothing and does not raise. */
  lemma LogOnInit(datas: seq<Record>)
    requires forall i :: 0 <= i < |datas| ==> Valid(datas[i])
    ensures Log(Init(), datas) == Outcome(Init(), [], None)
  {
    var n := Init();
    var data := MergeAll(datas);
    assert Sweep(n, data, 0) == Run([], None);
    assert Settle(n, data, None) == n.filters;
  }

  /**
   A binding registered by send with the default condition and a block, on
   an id that has a filter, is called by the next log with the merged record,
   unless an earlier binding raises first.
   */
  lemma SendThenLog(n: Node, id: Id, a: Action, datas: seq<Record>)
    requires WellFormed(n) && id in n.filters.vals
    requires forall i :: 0 <= i < |datas| ==> Valid(datas[i])
    ensures var r := Log(Send(n, One(id), None, Some(a)), datas);
      var at := Pos(id, |Bindings(n.sends, id)|);
      var call := Firing(at, a, ArgsFor(a.arity, Appended(n, MergeAll(datas), id)));
      (r.failure.None? || Before(n, at, r.failure.value)) ==> call in r.trace
  {
    SendOneFires(n, id, a, MergeAll(datas));
  }

  /** After send(id) { a } on a filtered id, the new binding is last and fires on every log. */
  lemma SendOneFires(n: Node, id: Id, a: Action, data: Entry)
    requires WellFormed(n) && id in n.filters.vals
    ensures var m := Send(n, One(id), None, Some(a));
      var at := Pos(id, |Bindings(n.sends, id)|);
      && LogFires(m, data, at)
      && LogCall(m, data, at) == Firing(at, a, ArgsFor(a.arity, Appended(n, data, id)))
  {
    var m := Send(n, One(id), None, Some(a));
    var b := Binding(Default(), Some(a));
    assert Count([id], id) == 1;
    assert Bindings(m.sends, id) == Bindings(n.sends, id) + [b];
  }

  /** Two nodes with the same filters whose bindings agree on every filtered id. */
  ghost predicate SameWiring(n: Node, m: Node) {
    && n.filters == m.filters
    && forall id :: id in n.filters.vals ==> Bindings(n.sends, id) == Bindings(m.sends, id)
  }

  /** Sweep sees only the bindings of filtered ids. */
  lemma {:induction false} SweepSameWiring(n: Node, m: Node, data: Entry, p: nat)
    requires WellFormed(n) && SameWiring(n, m) && p <= |n.filters.keys|
    ensures Sweep(n, data, p) == Sweep(m, data, p)
    decreases |n.filters.keys| - p
  {
    if p < |n.filters.keys| {
      var id := n.filters.keys[p];
      assert id in n.filters.vals && Bindings(n.sends, id) == Bindings(m.sends, id);
      assert Appended(n, data, id) == Appended(m, data, id);
      var here := Fire(id, Bindings(n.sends, id), 0, Appended(n, data, id));
      assert here == Fire(id, Bindings(m.sends, id), 0, Appended(m, data, id));
      SweepSameWiring(n, m, data, p + 1);
    }
  }

  /**
   Bindings on ids that have no filter are never consulted: sending to such
   ids changes nothing a later log does.
   */
  lemma SendUnfilteredInvisible(n: Node, ids: Ids, cond: Option<Condition>, blk: Option<Action>, datas: seq<Record>)
    requires WellFormed(n)
    requires forall id :: id in Targets(ids) ==> id !in n.filters.vals
    requires forall i :: 0 <= i < |datas| ==> Valid(datas[i])
    ensures var m := Send(n, ids, cond, blk);
      Log(m, datas).trace == Log(n, datas).trace && Log(m, datas).failure == Log(n, datas).failure
      && Log(m, datas).node.filters == Log(n, datas).node.filters
  {
    var m := Send(n, ids, cond, blk);
    SendUnfilteredWiring(n, ids, cond, blk);
    SweepSameWiring(n, m, MergeAll(datas), 0);
    LogSameWiring(n, m, datas);
  }

  lemma SendUnfilteredWiring(n: Node, ids: Ids, cond: Option<Condition>, blk: Option<Action>)
    requires forall id :: id in Targets(ids) ==> id !in n.filters.vals
    ensures SameWiring(n, Send(n, ids, cond, blk))
  {
    var m := Send(n, ids, cond, blk);
    forall id | id in n.filters.vals
      ensures Bindings(n.sends, id) == Bindings(m.sends, id)
    {
      CountAbsent(Targets(ids), id);
    }
  }

  /** Log depends on the bindings only through Sweep. */
  lemma LogSameWiring(n: Node, m: Node, datas: seq<Record>)
    requires WellFormed(n) && SameWiring(n, m)
    requires forall i :: 0 <= i < |datas| ==> Valid(datas[i])
    requires Sweep(n, MergeAll(datas), 0) == Sweep(m, MergeAll(datas), 0)
    ensures Log(m, datas).trace == Log(n, datas).trace
    ensures Log(m, datas).failure == Log(n, datas).failure
    ensures Log(m, datas).node.filters == Log(n, datas).node.filters
  {
    var data := MergeAll(datas);
    var run := Sweep(n, data, 0);
    assert Log(n, datas) == Outcome(Node(Settle(n, data, run.failure), n.sends), run.trace, run.failure);
    assert Log(m, datas) == Outcome(Node(Settle(m, data, run.failure), m.sends), run.trace, run.failure);
    SettleSameFilters(n, m, data, run.failure);
  }

  /** Settle reads only the filter table. */
  lemma SettleSameFilters(n: Node, m: Node, data: Entry, failure: Option<Pos>)
    requires n.filters == m.filters
    ensures Settle(n, data, failure) == Settle(m, data, failure)
  {
    assert forall id :: Reached(n, failure, id) == Reached(m, failure, id);
  }

  lemma {:induction false} CountAbsent(l: seq<Id>, x: Id)
    requires x !in l
    ensures Count(l, x) == 0
  {
    if l != [] {
      CountAbsent(l[1..], x);
    }
  }

  /**
   Two calls of log without a failure leave every buffer longer by the two
   merged records, in call order.
   */
  lemma LogTwice(n: Node, d1: seq<Record>, d2: seq<Record>)
    requires WellFormed(n)
    requires forall i :: 0 <= i < |d1| ==> Valid(d1[i])
    requires forall i :: 0 <= i < |d2| ==> Valid(d2[i])
    ensures var r1 := Log(n, d1);
      var r2 := Log(r1.node, d2);
      r1.failure.None? && r2.failure.None? ==>
        forall id :: id in n.filters.vals ==>
          r2.node.filters.vals[id].buffer == n.filters.vals[id].buffer + [MergeAll(d1), MergeAll(d2)]
  {
    var r1 := Log(n, d1);
    LogAppendsAll(n, d1);
    LogAppendsAll(r1.node, d2);
    var r2 := Log(r1.node, d2);
    if r1.failure.None? && r2.failure.None? {
      AppendTwice(n.filters, r1.node.filters, r2.node.filters, MergeAll(d1), MergeAll(d2));
    }
  }

  lemma AppendTwice(f0: Hash<FilterState>, f1: Hash<FilterState>, f2: Hash<FilterState>, e1: Entry, e2: Entry)
    requires forall id :: id in f0.vals ==> id in f1.vals && f1.vals[id].buffer == f0.vals[id].buffer + [e1]
    requires forall id :: id in f1.vals ==> id in f2.vals && f2.vals[id].buffer == f1.vals[id].buffer + [e2]
    ensures forall id :: id in f0.vals ==> id in f2.vals && f2.vals[id].buffer == f0.vals[id].buffer + [e1, e2]
  {
  }

  /** A log that does not raise appends the merged record to every buffer. */
  lemma LogAppendsAll(n: Node, datas: seq<Record>)
    requires WellFormed(n)
    requires forall i :: 0 <= i < |datas| ==> Valid(datas[i])
    ensures var r := Log(n, datas);
      r.failure.None? ==>
        forall id :: id in n.filters.vals ==>
          id in r.node.filters.vals && r.node.filters.vals[id].buffer == n.filters.vals[id].buffer + [MergeAll(datas)]
  {
  }

  /**
   filter on an id replaces its buffer: the next log that reaches it leaves
   exactly the one merged record there.
   */
  lemma FilterThenLog(n: Node, id: Id, period: Option<int>, blk: Option<Action>, datas: seq<Record>)
    requires WellFormed(n)
    requires forall i :: 0 <= i < |datas| ==> Valid(datas[i])
    ensures var m := Filter(n, id, period, blk);
      var r := Log(m, datas);
      Reached(m, r.failure, id) ==> r.node.filters.vals[id] == FilterState(period, blk, [MergeAll(datas)])
  {
    var m := Filter(n, id, period, blk);
    assert Get(m.filters, id) == Some(FilterState(period, blk, []));
    FreshBufferLog(m, datas, id, period, blk);
  }

  /** A log that reaches a filter with an empty buffer leaves just the merged record in it. */
  lemma FreshBufferLog(m: Node, datas: seq<Record>, id: Id, period: Option<int>, blk: Option<Action>)
    requires WellFormed(m) && id in m.filters.vals && m.filters.vals[id] == FilterState(period, blk, [])
    requires forall i :: 0 <= i < |datas| ==> Valid(datas[i])
    ensures var r := Log(m, datas);
      Reached(m, r.failure, id) ==> r.node.filters.vals[id] == FilterState(period, blk, [MergeAll(datas)])
  {
    var r := Log(m, datas);
    LogFilterState(m, datas, id);
    FreshBufferAppend(m.filters.vals[id], r.node.filters.vals[id], MergeAll(datas), Reached(m, r.failure, id));
  }

  /** Appending one entry to a fresh filter's buffer leaves exactly that entry in it. */
  lemma FreshBufferAppend(f: FilterState, g: FilterState, x: Entry, reached: bool)
    requires f.buffer == []
    requires g == if reached then FilterState(f.period, f.blk, f.buffer + [x]) else f
    ensures reached ==> g == FilterState(f.period, f.blk, [x])
  {
    if reached {
      assert f.buffer + [x] == [x];
    }
  }

  /** What log leaves in the filter of one id: the same period and block, and the buffer grown if log reached it. */
  lemma LogFilterState(n: Node, datas: seq<Record>, id: Id)
    requires WellFormed(n) && id in n.filters.vals
    requires forall i :: 0 <= i < |datas| ==> Valid(datas[i])
    ensures var r := Log(n, datas);
      var f := n.filters.vals[id];
      && id in r.node.filters.vals
      && r.node.filters.vals[id] ==
           if Reached(n, r.failure, id) then FilterState(f.period, f.blk, f.buffer + [MergeAll(datas)]) else f
  {
  }
}
