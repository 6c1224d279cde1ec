/** `JSONWriter` and `JSONStringer`: a mode, a comma flag and a stack of open arrays and objects
    that turn a sequence of calls into JSON text.

    The text is a sequence of tokens; a key or a scalar stands for its quoted or printed form. */
module JsonWriter {
  import opened Wrappers
  import opened Sequences

  const MAXDEPTH: nat := 200

  datatype Token = LBrace | RBrace | LBracket | RBracket | Comma | Colon | Key(name: string) | Scalar(text: string)

  datatype Mode = Array | Done | Initial | InKey | Object   // 'a', 'd', 'i', 'k', 'o'

  // An open array, or an open object with the keys it has so far.
  datatype Scope = ArrayScope | ObjectScope(keys: set<string>)

  datatype State = State(comma: bool, mode: Mode, stack: seq<Scope>, out: seq<Token>)

  // What a call leaves behind, and whether it threw.
  datatype Outcome = Outcome(state: State, threw: bool)

  const START := State(false, Initial, [], [])

  datatype Call =
    | DoArray
    | DoObject
    | DoEndArray
    | DoEndObject
    | DoKey(name: Option<string>)      // None is null
    | DoValue(text: Option<string>)

  /* ---------- the calls ---------- */

  function Append(s: State, t: Token): Outcome {
    if s.mode == Object || s.mode == Array then
      var out := s.out + (if s.comma && s.mode == Array then [Comma] else []) + [t];
      Outcome(State(true, if s.mode == Object then InKey else s.mode, s.stack, out), false)
    else Outcome(s, true)
  }

  function Push(s: State, scope: Scope): Outcome {
    if |s.stack| >= MAXDEPTH then Outcome(s, true)
    else Outcome(s.(stack := s.stack + [scope], mode := ModeOf(scope)), false)
  }

  function ModeOf(scope: Scope): Mode {
    if scope.ArrayScope? then Array else InKey
  }

  function OpenArray(s: State): Outcome {
    if s.mode == Initial || s.mode == Object || s.mode == Array then
      var p := Push(s, ArrayScope);
      if p.threw then p
      else
        var a := Append(p.state, LBracket);
        if a.threw then a else Outcome(a.state.(comma := false), false)
    else Outcome(s, true)
  }

  function OpenObject(s0: State): Outcome {
    var s := if s0.mode == Initial then s0.(mode := Object) else s0;
    if s.mode == Object || s.mode == Array then
      var a := Append(s, LBrace);
      if a.threw then a
      else
        var p := Push(a.state, ObjectScope({}));
        if p.threw then p else Outcome(p.state.(comma := false), false)
    else Outcome(s, true)
  }

  function Pop(s: State, m: Mode): Outcome {
    if s.stack == [] || ModeOf(s.stack[|s.stack| - 1]) != m then Outcome(s, true)   // "Nesting error."
    else
      var rest := s.stack[..|s.stack| - 1];
      Outcome(s.(stack := rest, mode := if rest == [] then Done else ModeOf(rest[|rest| - 1])), false)
  }

  function End(s: State, m: Mode, t: Token): Outcome {
    if s.mode != m then Outcome(s, true)
    else
      var p := Pop(s, m);
      if p.threw then p else Outcome(p.state.(out := p.state.out + [t], comma := true), false)
  }

  function WriteKey(s: State, name: Option<string>): Outcome {
    if name.None? || s.mode != InKey then Outcome(s, true)
    else if s.stack == [] || s.stack[|s.stack| - 1].ArrayScope? then Outcome(s, true)   // no object to put the key in
    else
      var top := |s.stack| - 1;
      if name.value in s.stack[top].keys then Outcome(s, true)   // putOnce
      else
        Outcome(State(false, Object, s.stack[top := ObjectScope(s.stack[top].keys + {name.value})],
                      s.out + (if s.comma then [Comma] else []) + [Key(name.value), Colon]), false)
  }

  function Perform(s: State, c: Call): Outcome {
    match c
    case DoArray => OpenArray(s)
    case DoObject => OpenObject(s)
    case DoEndArray => End(s, Array, RBracket)
    case DoEndObject => End(s, InKey, RBrace)
    case DoKey(name) => WriteKey(s, name)
    case DoValue(text) => if text.None? then Outcome(s, true) else Append(s, Scalar(text.value))
  }

  // JSONStringer.toString
  function Text(s: State): Option<seq<Token>> {
    if s.mode == Done then Some(s.out) else None
  }

  /* ---------- the object ---------- */

  class Writer {
    var comma: bool
    var mode: Mode
    var stack: array<Scope>
    var top: nat
    var writer: seq<Token>

    ghost predicate Valid()
      reads this
    {
      stack.Length == MAXDEPTH && top <= MAXDEPTH
    }

    ghost function View(): State
      requires Valid()
      reads this, stack
    {
      State(comma, mode, stack[..top], writer)
    }

    constructor ()
      ensures Valid() && View() == START && fresh(stack)
    {
      comma, mode, top, writer := false, Initial, 0, [];
      stack := new Scope[MAXDEPTH](i => ArrayScope);
    }

    method AppendText(t: Token) returns (threw: bool)
      requires Valid()
      modifies this
      ensures Valid() && stack == old(stack)
      ensures Outcome(View(), threw) == Append(old(View()), t)
    {
      if mode == Object || mode == Array {
        if comma && mode == Array {
          writer := writer + [Comma];
        }
        writer := writer + [t];
        if mode == Object {
          mode := InKey;
        }
        comma := true;
        return false;
      }
      return true;
    }

    method PushScope(scope: Scope) returns (threw: bool)
      requires Valid()
      modifies this, stack
      ensures Valid() && stack == old(stack)
      ensures Outcome(View(), threw) == Push(old(View()), scope)
    {
      if top >= MAXDEPTH {
        return true;
      }
      stack[top] := scope;
      mode := if scope.ArrayScope? then Array else InKey;
      top := top + 1;
      return false;
    }

    method PopScope(m: Mode) returns (threw: bool)
      requires Valid()
      modifies this
      ensures Valid() && stack == old(stack)
      ensures Outcome(View(), threw) == Pop(old(View()), m)
    {
      if top <= 0 {
        return true;
      }
      var found := if stack[top - 1].ArrayScope? then Array else InKey;
      if found != m {
        return true;
      }
      top := top - 1;
      mode := if top == 0 then Done else if stack[top - 1].ArrayScope? then Array else InKey;
      return false;
    }

    method BeginArray() returns (threw: bool)
      requires Valid()
      modifies this, stack
      ensures Valid() && stack == old(stack)
      ensures Outcome(View(), threw) == OpenArray(old(View()))
    {
      if mode == Initial || mode == Object || mode == Array {
        threw := PushScope(ArrayScope);
        if threw {
          return;
        }
        threw := AppendText(LBracket);
        if threw {
          return;
        }
        comma := false;
        return false;
      }
      return true;
    }

    method BeginObject() returns (threw: bool)
      requires Valid()
      modifies this, stack
      ensures Valid() && stack == old(stack)
      ensures Outcome(View(), threw) == OpenObject(old(View()))
    {
      if mode == Initial {
        mode := Object;
      }
      if mode == Object || mode == Array {
        threw := AppendText(LBrace);
        if threw {
          return;
        }
        threw := PushScope(ObjectScope({}));
        if threw {
          return;
        }
        comma := false;
        return false;
      }
      return true;
    }

    method EndScope(m: Mode, t: Token) returns (threw: bool)
      requires Valid()
      modifies this
      ensures Valid() && stack == old(stack)
      ensures Outcome(View(), threw) == End(old(View()), m, t)
    {
      if mode != m {
        return true;
      }
      threw := PopScope(m);
      if threw {
        return;
      }
      writer := writer + [t];
      comma := true;
      return false;
    }

    method PutKey(name: Option<string>) returns (threw: bool)
      requires Valid()
      modifies this, stack
      ensures Valid() && stack == old(stack)
      ensures Outcome(View(), threw) == WriteKey(old(View()), name)
    {
      if name.None? || mode != InKey {
        return true;
      }
      if top == 0 || stack[top - 1].ArrayScope? || name.value in stack[top - 1].keys {
        return true;
      }
      stack[top - 1] := ObjectScope(stack[top - 1].keys + {name.value});
      if comma {
        writer := writer + [Comma];
      }
      writer := writer + [Key(name.value)];
      writer := writer + [Colon];
      comma, mode := false, Object;
      return false;
    }
  }

  /* ---------- mode and stack, over all runs ---------- */

  ghost predicate Agrees(s: State) {
    match s.mode
    case Initial => s.stack == [] && s.out == [] && !s.comma
    case Done => s.stack == []
    case Array => s.stack != [] && s.stack[|s.stack| - 1].ArrayScope?
    case InKey => s.stack != [] && s.stack[|s.stack| - 1].ObjectScope?
    case Object => s.stack != [] && s.stack[|s.stack| - 1].ObjectScope?
  }

  // Every call keeps mode and stack top in agreement, also one that throws.
  lemma {:induction false} PerformAgrees(s: State, c: Call)
    requires Agrees(s)
    ensures Agrees(Perform(s, c).state)
  {
    match c
    case DoArray =>
    case DoObject =>
    case DoEndArray => EndAgrees(s, Array, RBracket);
    case DoEndObject => EndAgrees(s, InKey, RBrace);
    case DoKey(name) =>
    case DoValue(text) =>
  }

  lemma {:induction false} EndAgrees(s: State, m: Mode, t: Token)
    requires Agrees(s)
    ensures Agrees(End(s, m, t).state)
  {
  }

  // Calls one after the other, each exception caught and ignored.
  function ExecAll(s: State, cs: seq<Call>): State
    decreases |cs|
  {
    if cs == [] then s else ExecAll(Perform(s, cs[0]).state, cs[1..])
  }

  lemma {:induction false} AllRunsAgree(s: State, cs: seq<Call>)
    requires Agrees(s)
    ensures Agrees(ExecAll(s, cs))
    decreases |cs|
  {
    if cs != [] {
      PerformAgrees(s, cs[0]);
      AllRunsAgree(Perform(s, cs[0]).state, cs[1..]);
    }
  }

  // In every run, exceptions caught or not: when `end` gets past its own test, `pop` finds the
  // scope it expects, so neither "Nesting error" can happen; and `key` finds an object.
  lemma {:induction false} NoNestingError(cs: seq<Call>)
    ensures var s := ExecAll(START, cs);
            && (s.mode == Array ==> !Pop(s, Array).threw)
            && (s.mode == InKey ==> !Pop(s, InKey).threw && s.stack != [] && s.stack[|s.stack| - 1].ObjectScope?)
  {
    AllRunsAgree(START, cs);
  }

  // Once the text is complete every call throws and changes nothing.
  lemma {:induction false} FrozenWhenDone(s: State, cs: seq<Call>)
    requires s.mode == Done
    ensures ExecAll(s, cs) == s
    ensures forall c :: Perform(s, c) == Outcome(s, true)
    decreases |cs|
  {
    if cs != [] {
      FrozenWhenDone(s, cs[1..]);
    }
  }

  /* ---------- JSON values and their text ---------- */

  datatype Value =
    | Leaf(text: string)
    | Arr(items: seq<Value>)
    | Obj(members: seq<Member>)

  datatype Member = Member(key: string, value: Value)

  function Print(v: Value): seq<Token>
    decreases v, 1
  {
    match v
    case Leaf(text) => [Scalar(text)]
    case Arr(items) => [LBracket] + PrintItems(items, false) + [RBracket]
    case Obj(members) => [LBrace] + PrintMembers(members, false) + [RBrace]
  }

  function Sep(comma: bool): seq<Token> {
    if comma then [Comma] else []
  }

  function PrintItems(items: seq<Value>, comma: bool): seq<Token>
    decreases items, 0
  {
    if items == [] then [] else Sep(comma) + Print(items[0]) + PrintItems(items[1..], true)
  }

  function PrintMembers(members: seq<Member>, comma: bool): seq<Token>
    decreases members, 0
  {
    if members == [] then []
    else Sep(comma) + [Key(members[0].key), Colon] + Print(members[0].value) + PrintMembers(members[1..], true)
  }

  // No object in the value repeats a key.
  predicate Distinct(v: Value)
    decreases v, 1
  {
    match v
    case Leaf(_) => true
    case Arr(items) => DistinctItems(items)
    case Obj(members) => DistinctMembers(members, {})
  }

  predicate DistinctItems(items: seq<Value>)
    decreases items, 0
  {
    items == [] || (Distinct(items[0]) && DistinctItems(items[1..]))
  }

  predicate DistinctMembers(members: seq<Member>, seen: set<string>)
    decreases members, 0
  {
    members == [] ||
    (members[0].key !in seen && Distinct(members[0].value) && DistinctMembers(members[1..], seen + {members[0].key}))
  }

  function Max(a: nat, b: nat): nat { if a < b then b else a }

  function Depth(v: Value): nat
    decreases v, 1
  {
    match v
    case Leaf(_) => 0
    case Arr(items) => 1 + DepthItems(items)
    case Obj(members) => 1 + DepthMembers(members)
  }

  function DepthItems(items: seq<Value>): nat
    decreases items, 0
  {
    if items == [] then 0 else Max(Depth(items[0]), DepthItems(items[1..]))
  }

  function DepthMembers(members: seq<Member>): nat
    decreases members, 0
  {
    if members == [] then 0 else Max(Depth(members[0].value), DepthMembers(members[1..]))
  }

  /* ---------- the writer refines the recursive printer ---------- */

  function Calls(v: Value): seq<Call>
    decreases v, 1
  {
    match v
    case Leaf(text) => [DoValue(Some(text))]
    case Arr(items) => [DoArray] + ItemCalls(items) + [DoEndArray]
    case Obj(members) => [DoObject] + MemberCalls(members) + [DoEndObject]
  }

  function ItemCalls(items: seq<Value>): seq<Call>
    decreases items, 0
  {
    if items == [] then [] else Calls(items[0]) + ItemCalls(items[1..])
  }

  function MemberCalls(members: seq<Member>): seq<Call>
    decreases members, 0
  {
    if members == [] then []
    else [DoKey(Some(members[0].key))] + Calls(members[0].value) + MemberCalls(members[1..])
  }

  // A run in which no call throws; None if one does.
  function Run(s: State, cs: seq<Call>): Option<State>
    decreases |cs|
  {
    if cs == [] then Some(s)
    else
      var o := Perform(s, cs[0]);
      if o.threw then None else Run(o.state, cs[1..])
  }

  lemma {:induction false} RunConcat(s: State, a: seq<Call>, b: seq<Call>)
    ensures Run(s, a + b) == match Run(s, a) case None => None case Some(s') => Run(s', b)
    decreases |a|
  {
    if a == [] {
      assert a + b == b;
    } else {
      assert (a + b)[1..] == a[1..] + b;
      var o := Perform(s, a[0]);
      if !o.threw {
        RunConcat(o.state, a[1..], b);
      }
    }
  }

  // A state in which a value may come next.
  ghost predicate Ready(s: State) {
    Agrees(s) && (s.mode == Array || (s.mode == Object && !s.comma))
  }

  // The state after a value has been written.
  function After(s: State, v: Value): State {
    State(true, if s.mode == Object then InKey else s.mode, s.stack,
          s.out + Sep(s.comma && s.mode == Array) + Print(v))
  }

  // The calls of a value succeed exactly when it fits and repeats no key, and then write its
  // text.
  lemma {:induction false} ValueRun(s: State, v: Value)
    requires Ready(s) && |s.stack| <= MAXDEPTH
    ensures Run(s, Calls(v)) ==
            if |s.stack| + Depth(v) <= MAXDEPTH && Distinct(v) then Some(After(s, v)) else None
    decreases v, 1
  {
    match v
    case Leaf(text) =>
      assert Calls(v)[1..] == [];
    case Arr(items) => ArrayRun(s, items);
    case Obj(members) => ObjectRun(s, members);
  }

  // Opening and closing around `body`.
  function Opened(s: State, scope: Scope, t: Token): State {
    State(false, ModeOf(scope), s.stack + [scope], s.out + Sep(s.comma && s.mode == Array) + [t])
  }

  lemma {:induction false} OpenRun(s: State)
    requires Ready(s) || s == START
    ensures Perform(s, DoArray) ==
            if |s.stack| >= MAXDEPTH then Outcome(s, true) else Outcome(Opened(s, ArrayScope, LBracket), false)
    ensures |s.stack| < MAXDEPTH ==> Perform(s, DoObject) == Outcome(Opened(s, ObjectScope({}), LBrace), false)
    ensures |s.stack| >= MAXDEPTH ==> Perform(s, DoObject).threw
  {
  }

  lemma {:induction false} CloseRun(s: State, comma: bool, scope: Scope, out: seq<Token>, v: Value, c: Call, t: Token)
    requires Ready(s) || s == START
    requires if scope.ArrayScope? then c == DoEndArray && t == RBracket else c == DoEndObject && t == RBrace
    requires out + [t] == s.out + Sep(s.comma && s.mode == Array) + Print(v)
    ensures Run(State(comma, ModeOf(scope), s.stack + [scope], out), [c]) == Some(ClosedBy(s, v))
  {
    var s2 := State(comma, ModeOf(scope), s.stack + [scope], out);
    EndState(s2, s.stack, scope, t);
    RunOne(s2, c);
  }

  // What `end` does to a state whose innermost scope is `scope`.
  lemma {:induction false} EndState(s: State, rest: seq<Scope>, scope: Scope, t: Token)
    requires s.stack == rest + [scope] && s.mode == ModeOf(scope)
    ensures End(s, s.mode, t) ==
            Outcome(State(true, if rest == [] then Done else ModeOf(rest[|rest| - 1]), rest, s.out + [t]), false)
  {
    assert s.stack[..|s.stack| - 1] == rest;
  }

  lemma {:induction false} RunOne(s: State, c: Call)
    requires !Perform(s, c).threw
    ensures Run(s, [c]) == Some(Perform(s, c).state)
  {
    assert [c][1..] == [];
  }

  lemma {:induction false} Bracketed(open: Call, body: seq<Call>, close: Call)
    ensures ([open] + body + [close])[0] == open && ([open] + body + [close])[1..] == body + [close]
  {
  }

  lemma {:induction false} ArrayRun(s: State, items: seq<Value>)
    requires (Ready(s) || s == START) && |s.stack| <= MAXDEPTH
    ensures Run(s, Calls(Arr(items))) ==
            if |s.stack| + Depth(Arr(items)) <= MAXDEPTH && Distinct(Arr(items)) then Some(ClosedBy(s, Arr(items))) else None
    decreases items, 2
  {
    var cs, body := Calls(Arr(items)), ItemCalls(items);
    Bracketed(DoArray, body, DoEndArray);
    OpenRun(s);
    if |s.stack| < MAXDEPTH {
      var s1 := Opened(s, ArrayScope, LBracket);
      RunConcat(s1, body, [DoEndArray]);
      ItemsRun(s1, items);
      if |s1.stack| + DepthItems(items) <= MAXDEPTH && DistinctItems(items) {
        var s2 := AfterItems(s1, items);
        ArrayText(s.out + Sep(s.comma && s.mode == Array), items);
        CloseRun(s, s2.comma, ArrayScope, s2.out, Arr(items), DoEndArray, RBracket);
      }
    }
  }

  lemma {:induction false} ArrayText(front: seq<Token>, items: seq<Value>)
    ensures front + [LBracket] + PrintItems(items, false) + [RBracket] == front + Print(Arr(items))
  {
  }

  // The state after a whole array or object, also as the complete text.
  function ClosedBy(s: State, v: Value): State {
    if s.stack == [] then State(true, Done, [], s.out + Print(v)) else After(s, v)
  }

  function AfterItems(s: State, items: seq<Value>): State {
    s.(comma := s.comma || items != [], out := s.out + PrintItems(items, s.comma))
  }

  lemma {:induction false} ItemsRun(s: State, items: seq<Value>)
    requires Agrees(s) && s.mode == Array && |s.stack| <= MAXDEPTH
    ensures Run(s, ItemCalls(items)) ==
            if |s.stack| + DepthItems(items) <= MAXDEPTH && DistinctItems(items) then Some(AfterItems(s, items)) else None
    decreases items, 0
  {
    if items == [] {
      assert s.out + [] == s.out;
    } else {
      RunConcat(s, Calls(items[0]), ItemCalls(items[1..]));
      ValueRun(s, items[0]);
      if |s.stack| + Depth(items[0]) <= MAXDEPTH && Distinct(items[0]) {
        var s1 := After(s, items[0]);
        ItemsRun(s1, items[1..]);
        Concat3(s.out, Sep(s.comma) + Print(items[0]), PrintItems(items[1..], true));
        Concat3(s.out, Sep(s.comma), Print(items[0]));
      }
    }
  }

  lemma {:induction false} ObjectRun(s: State, members: seq<Member>)
    requires (Ready(s) || s == START) && |s.stack| <= MAXDEPTH
    ensures Run(s, Calls(Obj(members))) ==
            if |s.stack| + Depth(Obj(members)) <= MAXDEPTH && Distinct(Obj(members)) then Some(ClosedBy(s, Obj(members))) else None
    decreases members, 2
  {
    var cs, body := Calls(Obj(members)), MemberCalls(members);
    Bracketed(DoObject, body, DoEndObject);
    OpenRun(s);
    if |s.stack| < MAXDEPTH {
      var s1 := Opened(s, ObjectScope({}), LBrace);
      RunConcat(s1, body, [DoEndObject]);
      MembersRun(s1, members);
      if |s1.stack| + DepthMembers(members) <= MAXDEPTH && DistinctMembers(members, {}) {
        var s2 := AfterMembers(s1, members);
        var scope := ObjectScope({} + KeysOf(members));
        assert s2.stack == s.stack + [scope];
        ObjectText(s.out + Sep(s.comma && s.mode == Array), members);
        CloseRun(s, s2.comma, scope, s2.out, Obj(members), DoEndObject, RBrace);
      }
    }
  }

  lemma {:induction false} ObjectText(front: seq<Token>, members: seq<Member>)
    ensures front + [LBrace] + PrintMembers(members, false) + [RBrace] == front + Print(Obj(members))
  {
  }

  function KeysOf(members: seq<Member>): set<string> {
    set m | m in members :: m.key
  }

  function AfterMembers(s: State, members: seq<Member>): State
    requires s.stack != [] && s.stack[|s.stack| - 1].ObjectScope?
  {
    var top := |s.stack| - 1;
    s.(comma := s.comma || members != [],
       stack := s.stack[top := ObjectScope(s.stack[top].keys + KeysOf(members))],
       out := s.out + PrintMembers(members, s.comma))
  }

  lemma {:induction false} MembersRun(s: State, members: seq<Member>)
    requires Agrees(s) && s.mode == InKey && |s.stack| <= MAXDEPTH
    ensures Run(s, MemberCalls(members)) ==
            if |s.stack| + DepthMembers(members) <= MAXDEPTH && DistinctMembers(members, s.stack[|s.stack| - 1].keys)
            then Some(AfterMembers(s, members)) else None
    decreases members, 0
  {
    var top := |s.stack| - 1;
    var seen := s.stack[top].keys;
    if members == [] {
      assert s.out + [] == s.out && KeysOf(members) == {} && seen + {} == seen;
      assert s.stack[top := ObjectScope(seen)] == s.stack;
    } else {
      var k, v, rest := members[0].key, members[0].value, members[1..];
      var cs := MemberCalls(members);
      assert cs == [DoKey(Some(k))] + (Calls(v) + MemberCalls(rest));
      assert cs[1..] == Calls(v) + MemberCalls(rest);
      if k !in seen {
        var s1 := WriteKey(s, Some(k)).state;
        RunConcat(s1, Calls(v), MemberCalls(rest));
        ValueRun(s1, v);
        if |s.stack| + Depth(v) <= MAXDEPTH && Distinct(v) {
          var s2 := After(s1, v);
          MembersRun(s2, rest);
          MemberWritten(s, members);
        }
      }
    }
  }

  lemma {:induction false} MemberWritten(s: State, members: seq<Member>)
    requires Agrees(s) && s.mode == InKey && members != []
    requires members[0].key !in s.stack[|s.stack| - 1].keys
    ensures AfterMembers(After(WriteKey(s, Some(members[0].key)).state, members[0].value), members[1..]) == AfterMembers(s, members)
  {
    var k, v, rest := members[0].key, members[0].value, members[1..];
    var s1 := WriteKey(s, Some(k)).state;
    assert KeysOf(members) == {k} + KeysOf(rest) by {
      assert members == [members[0]] + rest;
      assert forall m :: m in members <==> m == members[0] || m in rest;
    }
    var top := |s.stack| - 1;
    assert s.stack[top].keys + {k} + KeysOf(rest) == s.stack[top].keys + KeysOf(members);
    var a, b, c, d := Sep(s.comma), [Key(k), Colon], Print(v), PrintMembers(rest, true);
    assert s.out + a + b + [] + c + d == s.out + (a + b + c + d);
    assert s1.out + Sep(false) + c + d == s.out + a + b + [] + c + d;
  }

  // For every array or object: its canonical calls all succeed exactly when it is at most 200
  // levels deep and repeats no key, and then the text is complete and is its printed form.
  lemma {:induction false} WriterRefinesPrinter(v: Value)
    requires !v.Leaf?
    ensures Run(START, Calls(v)) ==
            if Depth(v) <= MAXDEPTH && Distinct(v) then Some(State(true, Done, [], Print(v))) else None
  {
    match v
    case Arr(items) =>
      ArrayRun(START, items);
      assert START.out + Print(v) == Print(v);
    case Obj(members) =>
      ObjectRun(START, members);
      assert START.out + Print(v) == Print(v);
  }

  /* ---------- every run without an exception ---------- */

  // An array or object that is still open: what it has so far, and a key without its value.
  datatype Part = InArr(items: seq<Value>) | InObj(members: seq<Member>, pending: Option<string>)

  function PartText(p: Part): seq<Token> {
    match p
    case InArr(items) => [LBracket] + PrintItems(items, false)
    case InObj(members, pending) =>
      [LBrace] + PrintMembers(members, false) +
      (if pending.None? then [] else Sep(members != []) + [Key(pending.value), Colon])
  }

  // Whatever the next value in this part needs in front of it.
  function Gap(p: Part): seq<Token> {
    Sep(p.InArr? && p.items != [])
  }

  // The text up to where the next value starts, and the text written so far.
  function Prefix(parts: seq<Part>): seq<Token> {
    if parts == [] then []
    else
      var last := parts[|parts| - 1];
      Prefix(parts[..|parts| - 1]) + PartText(last) + Gap(last)
  }

  function Written(parts: seq<Part>): seq<Token> {
    if parts == [] then [] else Prefix(parts[..|parts| - 1]) + PartText(parts[|parts| - 1])
  }

  predicate Awaits(p: Part) { p.InArr? || p.pending.Some? }

  function Extended(p: Part, v: Value): Part
    requires Awaits(p)
  {
    match p
    case InArr(items) => InArr(items + [v])
    case InObj(members, pending) => InObj(members + [Member(pending.value, v)], None)
  }

  function AddValue(parts: seq<Part>, v: Value): seq<Part>
    requires parts != [] && Awaits(parts[|parts| - 1])
  {
    parts[..|parts| - 1] + [Extended(parts[|parts| - 1], v)]
  }

  lemma {:induction false} ItemsSnoc(items: seq<Value>, v: Value, comma: bool)
    ensures PrintItems(items + [v], comma) == PrintItems(items, comma) + Sep(comma || items != []) + Print(v)
    ensures DistinctItems(items + [v]) == (DistinctItems(items) && Distinct(v))
    decreases |items|
  {
    if items == [] {
      assert items + [v] == [v] && [v][1..] == [];
    } else {
      assert (items + [v])[1..] == items[1..] + [v];
      ItemsSnoc(items[1..], v, true);
    }
  }

  lemma {:induction false} KeysSnoc(members: seq<Member>, m: Member)
    ensures KeysOf(members + [m]) == KeysOf(members) + {m.key}
  {
    assert forall x :: x in members + [m] <==> x in members || x == m;
  }

  lemma {:induction false} KeysCons(members: seq<Member>)
    requires members != []
    ensures KeysOf(members) == {members[0].key} + KeysOf(members[1..])
  {
    assert forall x :: x in members <==> x == members[0] || x in members[1..];
  }

  lemma {:induction false} MembersSnocText(members: seq<Member>, m: Member, comma: bool)
    ensures PrintMembers(members + [m], comma) ==
            PrintMembers(members, comma) + Sep(comma || members != []) + [Key(m.key), Colon] + Print(m.value)
    decreases |members|
  {
    if members == [] {
      assert members + [m] == [m] && [m][1..] == [];
    } else {
      assert (members + [m])[1..] == members[1..] + [m];
      MembersSnocText(members[1..], m, true);
    }
  }

  lemma {:induction false} MembersSnocDistinct(members: seq<Member>, m: Member, seen: set<string>)
    ensures DistinctMembers(members + [m], seen) ==
            (DistinctMembers(members, seen) && m.key !in seen + KeysOf(members) && Distinct(m.value))
    decreases |members|
  {
    if members == [] {
      assert members + [m] == [m] && [m][1..] == [];
    } else {
      assert (members + [m])[1..] == members[1..] + [m];
      MembersSnocDistinct(members[1..], m, seen + {members[0].key});
      KeysCons(members);
      assert seen + {members[0].key} + KeysOf(members[1..]) == seen + KeysOf(members);
    }
  }

  // Adding a value to the innermost part writes exactly its text.
  lemma {:induction false} AddValueText(parts: seq<Part>, v: Value)
    requires parts != [] && Awaits(parts[|parts| - 1])
    ensures Written(AddValue(parts, v)) == Prefix(parts) + Print(v)
  {
    var front, last := parts[..|parts| - 1], parts[|parts| - 1];
    var parts' := AddValue(parts, v);
    assert parts'[..|parts'| - 1] == front;
    ExtendedText(last, v);
    Regroup3(Prefix(front), PartText(last), Gap(last), Print(v));
  }

  lemma {:induction false} ExtendedText(p: Part, v: Value)
    requires Awaits(p)
    ensures PartText(Extended(p, v)) == PartText(p) + Gap(p) + Print(v)
  {
    match p
    case InArr(items) => ItemsSnoc(items, v, false);
    case InObj(members, pending) =>
      MembersSnocText(members, Member(pending.value, v), false);
      Regroup([LBrace], PrintMembers(members, false), Sep(members != []), [Key(pending.value), Colon], Print(v));
  }

  lemma {:induction false} Regroup2(x: seq<Token>, a: seq<Token>, b: seq<Token>, c: seq<Token>, d: seq<Token>)
    ensures x + (a + b + (c + d)) == x + (a + b + []) + c + d
  {
  }

  lemma {:induction false} Regroup3(x: seq<Token>, a: seq<Token>, b: seq<Token>, c: seq<Token>)
    ensures x + (a + b + c) == x + a + b + c
  {
  }

  lemma {:induction false} Regroup(a: seq<Token>, b: seq<Token>, c: seq<Token>, d: seq<Token>, e: seq<Token>)
    ensures a + (b + c + d + e) + [] == a + b + (c + d) + [] + e
  {
  }

  // A part and the scope on the stack belong together.
  ghost predicate PartOk(p: Part, scope: Scope) {
    match p
    case InArr(items) => scope.ArrayScope? && DistinctItems(items)
    case InObj(members, pending) =>
      && scope == ObjectScope(KeysOf(members) + (if pending.None? then {} else {pending.value}))
      && DistinctMembers(members, {})
      && (pending.Some? ==> pending.value !in KeysOf(members))
  }

  // Parts for every scope; all but the innermost wait for the value being written.
  ghost predicate PartsOk(parts: seq<Part>, stack: seq<Scope>) {
    && |parts| == |stack|
    && (forall i | 0 <= i < |parts| :: PartOk(parts[i], stack[i]))
    && (forall i | 0 <= i < |parts| - 1 :: Awaits(parts[i]))
  }

  ghost predicate LastOk(s: State, last: Part) {
    match last
    case InArr(items) => s.mode == Array && s.comma == (items != [])
    case InObj(members, pending) =>
      if pending.None? then s.mode == InKey && s.comma == (members != []) else s.mode == Object && !s.comma
  }

  // Nothing written; everything written; or the parts that are open.
  datatype Progress = Begun(parts: seq<Part>) | Complete(v: Value)

  ghost predicate Matches(s: State, g: Progress) {
    match g
    case Complete(v) => s.mode == Done && s.stack == [] && s.out == Print(v) && !v.Leaf? && Distinct(v)
    case Begun(parts) =>
      if parts == [] then s == START
      else PartsOk(parts, s.stack) && s.out == Written(parts) && LastOk(s, parts[|parts| - 1])
  }

  function ValueOf(p: Part): Value {
    match p
    case InArr(items) => Arr(items)
    case InObj(members, _) => Obj(members)
  }

  lemma {:induction false} AddKeepsParts(parts: seq<Part>, stack: seq<Scope>, v: Value)
    requires PartsOk(parts, stack) && parts != [] && Awaits(parts[|parts| - 1]) && Distinct(v)
    ensures PartsOk(AddValue(parts, v), stack)
  {
    var last := parts[|parts| - 1];
    match last
    case InArr(items) => ItemsSnoc(items, v, false);
    case InObj(members, pending) =>
      KeysSnoc(members, Member(pending.value, v));
      MembersSnocDistinct(members, Member(pending.value, v), {});
  }

  lemma {:induction false} StepValue(s: State, parts: seq<Part>, text: string)
    requires Matches(s, Begun(parts)) && (s.mode == Array || s.mode == Object)
    ensures Matches(Append(s, Scalar(text)).state, Begun(AddValue(parts, Leaf(text))))
  {
    AddValueText(parts, Leaf(text));
    AddKeepsParts(parts, s.stack, Leaf(text));
    var last := parts[|parts| - 1];
    assert s.out + Gap(last) + Print(Leaf(text)) == Prefix(parts) + Print(Leaf(text));
  }

  lemma {:induction false} WrittenWith(front: seq<Part>, p: Part)
    ensures Written(front + [p]) == Prefix(front) + PartText(p)
  {
    assert (front + [p])[..|front|] == front;
  }

  lemma {:induction false} StepOpen(s: State, parts: seq<Part>, p: Part, scope: Scope, t: Token)
    requires Matches(s, Begun(parts)) && (Ready(s) || s == START)
    requires PartOk(p, scope) && PartText(p) == [t] && LastOk(Opened(s, scope, t), p)
    ensures Matches(Opened(s, scope, t), Begun(parts + [p]))
  {
    WrittenWith(parts, p);
    if parts == [] {
      OpenFirst();
    } else {
      OpenInside(s, parts);
    }
    PartsPush(parts, s.stack, p, scope);
    assert (parts + [p])[|parts|] == p;
  }

  lemma {:induction false} OpenFirst()
    ensures Prefix([]) == START.out + Sep(START.comma && START.mode == Array) && PartsOk([], START.stack)
  {
  }

  lemma {:induction false} PartsPush(parts: seq<Part>, stack: seq<Scope>, p: Part, scope: Scope)
    requires PartsOk(parts, stack) && PartOk(p, scope) && (parts != [] ==> Awaits(parts[|parts| - 1]))
    ensures PartsOk(parts + [p], stack + [scope])
  {
  }

  // A value may start in the innermost part, and the comma flag says what goes before it.
  lemma {:induction false} OpenInside(s: State, parts: seq<Part>)
    requires Matches(s, Begun(parts)) && parts != [] && Ready(s)
    ensures Awaits(parts[|parts| - 1]) && Prefix(parts) == s.out + Sep(s.comma && s.mode == Array)
  {
  }

  lemma {:induction false} StepKey(s: State, front: seq<Part>, last: Part, name: string)
    requires Matches(s, Begun(front + [last])) && last.InObj? && last.pending.None? && name !in KeysOf(last.members)
    ensures !WriteKey(s, Some(name)).threw
    ensures Matches(WriteKey(s, Some(name)).state, Begun(front + [InObj(last.members, Some(name))]))
  {
    var p := InObj(last.members, Some(name));
    var scope := ObjectScope(KeysOf(last.members) + {name});
    KeyText(front, last, name);
    assert (front + [last])[|front|] == last;
    assert KeysOf(last.members) + {} == KeysOf(last.members);
    assert s.stack[|front|] == ObjectScope(KeysOf(last.members));
    KeyedParts(front, last, p, s.stack, scope);
  }

  lemma {:induction false} KeyText(front: seq<Part>, last: Part, name: string)
    requires last.InObj? && last.pending.None?
    ensures Written(front + [InObj(last.members, Some(name))]) ==
            Written(front + [last]) + Sep(last.members != []) + [Key(name), Colon]
  {
    var p := InObj(last.members, Some(name));
    WrittenWith(front, last);
    WrittenWith(front, p);
    Regroup2(Prefix(front), [LBrace], PrintMembers(last.members, false), Sep(last.members != []), [Key(name), Colon]);
  }

  lemma {:induction false} KeyedParts(front: seq<Part>, last: Part, p: Part, stack: seq<Scope>, scope: Scope)
    requires PartsOk(front + [last], stack) && PartOk(p, scope)
    ensures PartsOk(front + [p], stack[|front| := scope])
  {
    forall i | 0 <= i < |front| ensures PartOk((front + [p])[i], stack[i]) && Awaits((front + [p])[i]) {
      assert (front + [last])[i] == (front + [p])[i];
    }
  }

  // The closing token completes the text of the part.
  lemma {:induction false} EndText(front: seq<Part>, last: Part, t: Token)
    requires if last.InArr? then t == RBracket else t == RBrace && last.pending.None?
    ensures Written(front + [last]) + [t] == Prefix(front) + Print(ValueOf(last))
  {
    WrittenWith(front, last);
    if last.InArr? {
      Regroup4(Prefix(front), [LBracket], PrintItems(last.items, false), [], [t]);
    } else {
      Regroup4(Prefix(front), [LBrace], PrintMembers(last.members, false), [], [t]);
    }
  }

  lemma {:induction false} Regroup4(x: seq<Token>, a: seq<Token>, b: seq<Token>, none: seq<Token>, t: seq<Token>)
    requires none == []
    ensures x + (a + b) + t == x + (a + b + t) && x + (a + b + none) + t == x + (a + b + t)
  {
  }

  lemma {:induction false} StepEndOutermost(s: State, last: Part, m: Mode, t: Token)
    requires Matches(s, Begun([last])) && s.mode == m && m in {Array, InKey} && t == (if m == Array then RBracket else RBrace)
    ensures Matches(End(s, m, t).state, Complete(ValueOf(last)))
  {
    EndText([], last, t);
    assert [] + [last] == [last] && Prefix([]) + Print(ValueOf(last)) == Print(ValueOf(last));
    assert s.stack == [] + [s.stack[0]];
    EndState(s, [], s.stack[0], t);
  }

  lemma {:induction false} StepEndInside(s: State, front: seq<Part>, last: Part, m: Mode, t: Token)
    requires Matches(s, Begun(front + [last])) && front != []
    requires s.mode == m && m in {Array, InKey} && t == (if m == Array then RBracket else RBrace)
    ensures Awaits(front[|front| - 1]) && Matches(End(s, m, t).state, Begun(AddValue(front, ValueOf(last))))
  {
    var v, rest, scope := ValueOf(last), s.stack[..|s.stack| - 1], s.stack[|s.stack| - 1];
    EndText(front, last, t);
    OuterParts(front, last, s.stack);
    assert s.stack == rest + [scope];
    EndState(s, rest, scope, t);
    AfterEnd(front, rest, v);
  }

  // The enclosing part with the finished value, and the state `end` leaves.
  lemma {:induction false} AfterEnd(front: seq<Part>, rest: seq<Scope>, v: Value)
    requires PartsOk(front, rest) && front != [] && Awaits(front[|front| - 1]) && Distinct(v)
    ensures Matches(State(true, ModeOf(rest[|rest| - 1]), rest, Prefix(front) + Print(v)), Begun(AddValue(front, v)))
  {
    AddValueText(front, v);
    AddKeepsParts(front, rest, v);
    AddedLast(front, v);
  }

  lemma {:induction false} OuterParts(front: seq<Part>, last: Part, stack: seq<Scope>)
    requires PartsOk(front + [last], stack) && front != []
    ensures PartsOk(front, stack[..|stack| - 1]) && Awaits(front[|front| - 1]) && PartOk(last, stack[|stack| - 1])
  {
    forall i | 0 <= i < |front| ensures PartOk(front[i], stack[i]) && Awaits(front[i]) {
      assert front[i] == (front + [last])[i];
    }
    assert last == (front + [last])[|front|];
  }

  // After a value the innermost part waits for the next item or key.
  lemma {:induction false} AddedLast(parts: seq<Part>, v: Value)
    requires parts != [] && Awaits(parts[|parts| - 1])
    ensures var p := AddValue(parts, v)[|parts| - 1];
            if parts[|parts| - 1].InArr? then p.InArr? && p.items != [] else p.InObj? && p.pending.None? && p.members != []
  {
  }

  lemma {:induction false} OpenMatches(s: State, parts: seq<Part>, c: Call) returns (g': Progress)
    requires Matches(s, Begun(parts)) && (c == DoArray || c == DoObject) && !Perform(s, c).threw
    ensures Matches(Perform(s, c).state, g')
  {
    OpenWhere(s, parts, c);
    OpenRun(s);
    assert KeysOf([]) + {} == {};
    var p := if c == DoArray then InArr([]) else InObj([], None);
    if c == DoArray {
      StepOpen(s, parts, p, ArrayScope, LBracket);
    } else {
      StepOpen(s, parts, p, ObjectScope({}), LBrace);
    }
    g' := Begun(parts + [p]);
  }

  // Open parts agree with the stack and the flags.
  lemma {:induction false} PartsAgree(s: State, parts: seq<Part>)
    requires Matches(s, Begun(parts))
    ensures Agrees(s) && s.mode != Done && (s.mode == Initial ==> s == START) && (s.mode == Object ==> !s.comma)
  {
    if parts != [] {
      var last := |parts| - 1;
      assert PartOk(parts[last], s.stack[last]);
    }
  }

  lemma {:induction false} OpenWhere(s: State, parts: seq<Part>, c: Call)
    requires Matches(s, Begun(parts)) && (c == DoArray || c == DoObject) && !Perform(s, c).threw
    ensures (Ready(s) || s == START) && |s.stack| < MAXDEPTH
  {
    PartsAgree(s, parts);
    OpenOnlyWhere(s, c);
  }

  lemma {:induction false} OpenOnlyWhere(s: State, c: Call)
    requires (c == DoArray || c == DoObject) && !Perform(s, c).threw
    ensures s.mode in {Initial, Object, Array} && |s.stack| < MAXDEPTH
  {
  }

  lemma {:induction false} EndOnlyWhere(s: State, c: Call)
    requires (c == DoEndArray || c == DoEndObject) && !Perform(s, c).threw
    ensures s.mode == if c == DoEndArray then Array else InKey
  {
  }

  lemma {:induction false} SplitLast<T>(ts: seq<T>)
    requires ts != []
    ensures ts == ts[..|ts| - 1] + [ts[|ts| - 1]]
  {
  }

  lemma {:induction false} EndMatches(s: State, parts: seq<Part>, c: Call) returns (g': Progress)
    requires Matches(s, Begun(parts)) && (c == DoEndArray || c == DoEndObject) && !Perform(s, c).threw
    ensures Matches(Perform(s, c).state, g')
  {
    PartsAgree(s, parts);
    EndOnlyWhere(s, c);
    SplitLast(parts);
    g' := EndMatchesAt(s, parts[..|parts| - 1], parts[|parts| - 1], c);
  }

  lemma {:induction false} EndMatchesAt(s: State, front: seq<Part>, last: Part, c: Call) returns (g': Progress)
    requires Matches(s, Begun(front + [last])) && (c == DoEndArray || c == DoEndObject)
    requires s.mode == if c == DoEndArray then Array else InKey
    ensures Matches(Perform(s, c).state, g')
  {
    var t := if c == DoEndArray then RBracket else RBrace;
    if front == [] {
      assert front + [last] == [last];
      StepEndOutermost(s, last, s.mode, t);
      g' := Complete(ValueOf(last));
    } else {
      StepEndInside(s, front, last, s.mode, t);
      g' := Begun(AddValue(front, ValueOf(last)));
    }
  }

  lemma {:induction false} KeyMatches(s: State, parts: seq<Part>, name: string) returns (g': Progress)
    requires Matches(s, Begun(parts)) && !WriteKey(s, Some(name)).threw
    ensures Matches(WriteKey(s, Some(name)).state, g')
  {
    PartsAgree(s, parts);
    SplitLast(parts);
    var front, last := parts[..|parts| - 1], parts[|parts| - 1];
    assert PartOk(last, s.stack[|s.stack| - 1]);
    StepKey(s, front, last, name);
    g' := Begun(front + [InObj(last.members, Some(name))]);
  }

  lemma {:induction false} ValueMatches(s: State, parts: seq<Part>, text: string) returns (g': Progress)
    requires Matches(s, Begun(parts)) && !Append(s, Scalar(text)).threw
    ensures Matches(Append(s, Scalar(text)).state, g')
  {
    assert parts != [] && Awaits(parts[|parts| - 1]);
    StepValue(s, parts, text);
    g' := Begun(AddValue(parts, Leaf(text)));
  }

  lemma {:induction false} StepMatches(s: State, g: Progress, c: Call) returns (g': Progress)
    requires Matches(s, g) && !Perform(s, c).threw
    ensures Matches(Perform(s, c).state, g')
  {
    if s.mode == Done {
      FrozenWhenDone(s, []);
    }
    match c
    case DoArray => g' := OpenMatches(s, g.parts, c);
    case DoObject => g' := OpenMatches(s, g.parts, c);
    case DoEndArray => g' := EndMatches(s, g.parts, c);
    case DoEndObject => g' := EndMatches(s, g.parts, c);
    case DoKey(name) => g' := KeyMatches(s, g.parts, name.value);
    case DoValue(text) => g' := ValueMatches(s, g.parts, text.value);
  }

  lemma {:induction false} RunMatches(s: State, g: Progress, cs: seq<Call>) returns (g': Progress)
    requires Matches(s, g) && Run(s, cs).Some?
    ensures Matches(Run(s, cs).value, g')
    decreases |cs|
  {
    if cs == [] {
      g' := g;
    } else {
      var g1 := StepMatches(s, g, cs[0]);
      g' := RunMatches(Perform(s, cs[0]).state, g1, cs[1..]);
    }
  }

  // Closing everything that is open, with null for a key that still lacks its value.
  function Closed(p: Part): Part {
    if Awaits(p) && p.InObj? then Extended(p, Leaf("null")) else p
  }

  function CloseAll(front: seq<Part>, last: Part): Value
    requires forall i | 0 <= i < |front| :: Awaits(front[i])
    decreases |front|
  {
    var v := ValueOf(Closed(last));
    if front == [] then v
    else CloseAll(front[..|front| - 1], Extended(front[|front| - 1], v))
  }

  ghost predicate ProperPrefix(a: seq<Token>, b: seq<Token>) {
    |a| < |b| && a == b[..|a|]
  }

  lemma {:induction false} PartIsPrefix(p: Part)
    ensures ProperPrefix(PartText(p), Print(ValueOf(Closed(p))))
  {
    if p.InArr? {
      assert Print(Arr(p.items)) == PartText(p) + [RBracket];
    } else if p.pending.None? {
      assert Print(Obj(p.members)) == PartText(p) + [RBrace];
    } else {
      ExtendedText(p, Leaf("null"));
      var q := Extended(p, Leaf("null"));
      assert Print(Obj(q.members)) == PartText(q) + [RBrace];
      assert PartText(q) + [RBrace] == PartText(p) + (Gap(p) + Print(Leaf("null")) + [RBrace]);
    }
  }

  lemma {:induction false} WrittenIsPrefix(front: seq<Part>, last: Part)
    requires forall i | 0 <= i < |front| :: Awaits(front[i])
    ensures ProperPrefix(Prefix(front) + PartText(last), Print(CloseAll(front, last)))
    ensures !CloseAll(front, last).Leaf?
    decreases |front|
  {
    var v := ValueOf(Closed(last));
    PartIsPrefix(last);
    if front == [] {
      assert Prefix(front) + PartText(last) == PartText(last);
    } else {
      var ff, fl := front[..|front| - 1], front[|front| - 1];
      WrittenIsPrefix(ff, Extended(fl, v));
      ExtendedText(fl, v);
      Regroup3(Prefix(ff), PartText(fl), Gap(fl), Print(v));
      PrefixChain(Prefix(front), PartText(last), Print(v), Print(CloseAll(front, last)));
    }
  }

  lemma {:induction false} PrefixChain(front: seq<Token>, a: seq<Token>, b: seq<Token>, c: seq<Token>)
    requires ProperPrefix(a, b) && ProperPrefix(front + b, c)
    ensures ProperPrefix(front + a, c)
  {
    assert (front + b)[..|front + a|] == front + a;
  }

  // Soundness. When no call has thrown, a finished text is the text of exactly one array or
  // object without repeated keys, and an unfinished one is a proper prefix of such a text.
  lemma {:induction false} WriterSound(cs: seq<Call>)
    requires Run(START, cs).Some?
    ensures var s := Run(START, cs).value;
            match Text(s)
            case Some(text) => exists v: Value :: !v.Leaf? && Distinct(v) && text == Print(v)
            case None => exists v: Value :: !v.Leaf? && ProperPrefix(s.out, Print(v))
  {
    var s := Run(START, cs).value;
    var g := RunMatches(START, Begun([]), cs);
    match g
    case Complete(v) =>
    case Begun(parts) =>
      if parts == [] {
        assert ProperPrefix(s.out, Print(Arr([])));
      } else {
        var front, last := parts[..|parts| - 1], parts[|parts| - 1];
        WrittenIsPrefix(front, last);
        assert ProperPrefix(s.out, Print(CloseAll(front, last)));
      }
  }
}
