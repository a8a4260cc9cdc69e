/**
 The provider registry (src/loader/registry.c): registration as a transaction, and the record
 of what it did to the outside world.
 */
module Registry {
  import opened Text

  datatype Engine = Engine(lang: Option<string>, complete: bool)

  /** What a provider's descriptor holds. `components` is None for a NULL array; a component's
      name may be NULL. `init` is the code its hook would return. */
  datatype Provider = Provider(
    id: nat,
    abi: nat,
    identified: bool,
    components: Option<seq<Option<string>>>,
    count: nat,
    engine: Option<Engine>,
    init: Option<int>,
    hasShutdown: bool)

  const ABI_VERSION: nat := 1

  /** The component array has as many entries as the descriptor says. */
  predicate WellTyped(p: Provider) { p.components.Some? ==> |p.components.value| == p.count }

  datatype Stored = Stored(handle: Option<nat>, prov: Provider, tag: string)

  datatype ComponentEntry = ComponentEntry(name: string, provider: nat, ix: nat)

  datatype ExprEntry = ExprEntry(lang: string, provider: nat)

  datatype Code = Ok | Invalid | Unsupported | Io | Internal | HookFailed(rc: int)

  /** What the outside world sees. */
  datatype Event = Opened(handle: nat) | Closed(handle: nat) | Started(prov: Provider) | ShutDown(prov: Provider)

  // ---------------------------------------------------------------- what is registered

  predicate NamesPresent(p: Provider) {
    p.components.Some? && forall i :: 0 <= i < |p.components.value| ==> p.components.value[i].Some?
  }

  function EntriesFrom(p: Provider, pix: nat, i: nat): (r: seq<ComponentEntry>)
    requires NamesPresent(p) && i <= |p.components.value|
    ensures |r| == |p.components.value| - i
    decreases |p.components.value| - i
  {
    if i == |p.components.value| then []
    else [ComponentEntry(p.components.value[i].value, pix, i)] + EntriesFrom(p, pix, i + 1)
  }

  /** The component entries one stored provider owns. */
  function Entries(p: Provider, pix: nat): seq<ComponentEntry> {
    if NamesPresent(p) then EntriesFrom(p, pix, 0) else []
  }

  function Components(ps: seq<Stored>): seq<ComponentEntry> {
    if ps == [] then [] else Components(ps[..|ps| - 1]) + Entries(ps[|ps| - 1].prov, |ps| - 1)
  }

  function ExprOf(p: Provider, pix: nat): seq<ExprEntry> {
    if p.engine.Some? && p.engine.value.lang.Some? then [ExprEntry(p.engine.value.lang.value, pix)] else []
  }

  function Exprs(ps: seq<Stored>): seq<ExprEntry> {
    if ps == [] then [] else Exprs(ps[..|ps| - 1]) + ExprOf(ps[|ps| - 1].prov, |ps| - 1)
  }

  /** find_entry: the first entry of that name from `i` on. */
  function FindComponent(es: seq<ComponentEntry>, name: string): Option<ComponentEntry> {
    if es == [] then None else if es[0].name == name then Some(es[0]) else FindComponent(es[1..], name)
  }

  function FindExpr(es: seq<ExprEntry>, lang: string): Option<ExprEntry> {
    if es == [] then None else if es[0].lang == lang then Some(es[0]) else FindExpr(es[1..], lang)
  }

  // ---------------------------------------------------------------- what may be registered

  /** Names there, new to the registry and different from each other. */
  predicate ComponentsAcceptable(ps: seq<Stored>, p: Provider) {
    p.components.Some? ==>
      && NamesPresent(p)
      && (forall i :: 0 <= i < |p.components.value| ==> FindComponent(Components(ps), p.components.value[i].value).None?)
      && (forall i, j :: 0 <= j < i < |p.components.value| ==> p.components.value[j] != p.components.value[i])
  }

  predicate EngineAcceptable(ps: seq<Stored>, p: Provider) {
    p.engine.Some? ==>
      && p.engine.value.lang.Some? && p.engine.value.lang.value != "" && p.engine.value.complete
      && FindExpr(Exprs(ps), p.engine.value.lang.value).None?
  }

  /** The checks before anything is touched. */
  function Preflight(ps: seq<Stored>, p: Provider): Code {
    if p.abi != ABI_VERSION then Unsupported
    else if !p.identified then Invalid
    else if p.count > 0 && p.components.None? then Invalid
    else if !ComponentsAcceptable(ps, p) || !EngineAcceptable(ps, p) then Invalid
    else Ok
  }

  function CloseOf(handle: Option<nat>): seq<Event> { if handle.Some? then [Closed(handle.value)] else [] }

  function ShutdownOf(p: Provider): seq<Event> { if p.hasShutdown then [ShutDown(p)] else [] }

  datatype Done = Done(ps: seq<Stored>, events: seq<Event>, code: Code)

  /** register_validated; `grows` says whether every allocation succeeded. */
  function RegisterValidated(ps: seq<Stored>, handle: Option<nat>, prov: Option<Provider>, tag: string, grows: bool): Done {
    if prov.None? then Done(ps, CloseOf(handle), Invalid)
    else
      var p := prov.value;
      if Preflight(ps, p) != Ok then Done(ps, CloseOf(handle), Preflight(ps, p))
      else if p.init.Some? && p.init.value != 0 then Done(ps, CloseOf(handle), HookFailed(p.init.value))
      else if !grows then Done(ps, [Started(p)] + ShutdownOf(p) + CloseOf(handle), Internal)
      else Done(ps + [Stored(handle, p, tag)], [Started(p)], Ok)
  }

  predicate LabelTaken(ps: seq<Stored>, tag: string) { exists i :: 0 <= i < |ps| && ps[i].tag == tag }

  /** One call on the registry with what the outside world answers. */
  datatype Op =
    | Load(path: string, handle: Option<nat>, symbol: bool, entry: Option<Provider>, grows: bool)
    | Register(prov: Option<Provider>, tag: Option<string>, grows: bool)

  function Step(ps: seq<Stored>, op: Op): Done {
    match op
    case Load(path, handle, symbol, entry, grows) =>
      if LabelTaken(ps, path) then Done(ps, [], Invalid)
      else if handle.None? then Done(ps, [], Io)
      else if !symbol then Done(ps, [Opened(handle.value), Closed(handle.value)], Io)
      else
        var d := RegisterValidated(ps, handle, entry, path, grows);
        d.(events := [Opened(handle.value)] + d.events)
    case Register(prov, tag, grows) =>
      if prov.None? then Done(ps, [], Invalid)
      else
        var l := if tag.Some? then tag.value else "<builtin>";
        if LabelTaken(ps, l) then Done(ps, [], Invalid) else RegisterValidated(ps, None, prov, l, grows)
  }

  /** betl_registry_destroy. */
  function Destroy(ps: seq<Stored>): seq<Event> {
    if ps == [] then []
    else
      var last := ps[|ps| - 1];
      ShutdownOf(last.prov) + CloseOf(last.handle) + Destroy(ps[..|ps| - 1])
  }

  // ---------------------------------------------------------------- the registry object

  /** Which allocations fail: the k-th growth of the component table, and the others. */
  datatype Faults = Faults(providers: bool, components: nat -> bool, exprs: bool, tag: bool)

  class BetlRegistry {
    var providers: seq<Stored>
    var providersCap: nat
    var components: seq<ComponentEntry>
    var componentsCap: nat
    var exprs: seq<ExprEntry>
    var exprsCap: nat
    var events: seq<Event>   // what the outside world has seen so far

    ghost predicate Valid()
      reads this
    {
      && |providers| <= providersCap && |components| <= componentsCap && |exprs| <= exprsCap
      && components == Components(providers) && exprs == Exprs(providers)
    }

    constructor ()
      ensures Valid() && providers == [] && events == []
    {
      providers, components, exprs, events := [], [], [], [];
      providersCap, componentsCap, exprsCap := 0, 0, 0;
    }

    method FindEntry(name: string) returns (r: Option<ComponentEntry>)
      ensures r == FindComponent(components, name)
    {
      var i := 0;
      assert components[0..] == components;
      while i < |components|
        invariant i <= |components| && FindComponent(components, name) == FindComponent(components[i..], name)
      {
        if components[i].name == name { return Some(components[i]); }
        assert components[i..][1..] == components[i + 1..];
        i := i + 1;
      }
      return None;
    }

    method FindExprEntry(lang: string) returns (r: Option<ExprEntry>)
      ensures r == FindExpr(exprs, lang)
    {
      var i := 0;
      assert exprs[0..] == exprs;
      while i < |exprs|
        invariant i <= |exprs| && FindExpr(exprs, lang) == FindExpr(exprs[i..], lang)
      {
        if exprs[i].lang == lang { return Some(exprs[i]); }
        assert exprs[i..][1..] == exprs[i + 1..];
        i := i + 1;
      }
      return None;
    }

    /** The name checks, component by component, each against the registry and the earlier
        ones. */
    method CheckComponents(p: Provider) returns (ok: bool)
      requires Valid() && WellTyped(p) && (p.count > 0 ==> p.components.Some?)
      ensures ok == ComponentsAcceptable(providers, p)
    {
      if p.components == None { return true; }
      var names := p.components.value;
      var i := 0;
      while i < p.count
        invariant i <= p.count
        invariant forall k :: 0 <= k < i ==> names[k].Some?
        invariant forall k :: 0 <= k < i ==> FindComponent(components, names[k].value).None?
        invariant forall k, j :: 0 <= j < k < i ==> names[j] != names[k]
      {
        if names[i] == None { return false; }
        var taken := FindEntry(names[i].value);
        if taken.Some? { return false; }
        var j := 0;
        while j < i
          invariant j <= i && forall k :: 0 <= k < j ==> names[k] != names[i]
        {
          if names[j].value == names[i].value { return false; }
          j := j + 1;
        }
        i := i + 1;
      }
      return true;
    }

    method CheckEngine(p: Provider) returns (ok: bool)
      requires Valid()
      ensures ok == EngineAcceptable(providers, p)
    {
      if p.engine == None { return true; }
      var e := p.engine.value;
      if e.lang == None || e.lang.value == "" || !e.complete { return false; }
      var taken := FindExprEntry(e.lang.value);
      return taken == None;
    }

    /** Room for the new rows; what grew before a failure stays grown. */
    method Reserve(p: Provider, faults: Faults) returns (ok: bool)
      requires Valid()
      modifies this`providersCap, this`componentsCap, this`exprsCap
      ensures Valid()
      ensures ok ==> |providers| < providersCap && |components| + p.count <= componentsCap
      ensures ok && p.engine.Some? ==> |exprs| < exprsCap
    {
      if |providers| == providersCap {
        if faults.providers { return false; }
        providersCap := if providersCap > 0 then providersCap * 2 else 4;
      }
      var k := 0;
      while |components| + p.count > componentsCap
        invariant Valid() && |providers| < providersCap
        decreases |components| + p.count - componentsCap
      {
        if faults.components(k) { return false; }
        componentsCap := if componentsCap > 0 then componentsCap * 2 else 16;
        k := k + 1;
      }
      if p.engine.Some? && |exprs| == exprsCap {
        if faults.exprs { return false; }
        exprsCap := if exprsCap > 0 then exprsCap * 2 else 4;
      }
      return !faults.tag;
    }

    method CommitComponents(p: Provider, pix: nat)
      requires WellTyped(p) && (p.components.Some? ==> NamesPresent(p)) && (p.components.None? ==> p.count == 0)
      modifies this`components
      ensures components == old(components) + Entries(p, pix) && |components| == old(|components|) + p.count
    {
      var i := 0;
      ghost var start := components;
      while i < p.count
        invariant i <= p.count && |components| == |start| + i
        invariant p.components.Some? ==> components + EntriesFrom(p, pix, i) == start + Entries(p, pix)
        invariant p.components.None? ==> components == start
      {
        ghost var here := components;
        components := components + [ComponentEntry(p.components.value[i].value, pix, i)];
        assert components + EntriesFrom(p, pix, i + 1)
            == here + ([ComponentEntry(p.components.value[i].value, pix, i)] + EntriesFrom(p, pix, i + 1));
        i := i + 1;
      }
      if p.components.Some? {
        assert components + [] == components;
      } else {
        assert start + [] == start;
      }
    }

    /** The commit, which cannot fail any more. */
    method Commit(handle: Option<nat>, p: Provider, tag: string)
      requires Valid() && WellTyped(p) && Preflight(providers, p) == Ok
      requires |providers| < providersCap && |components| + p.count <= componentsCap
      requires p.engine.Some? ==> |exprs| < exprsCap
      modifies this`providers, this`components, this`exprs
      ensures Valid() && providers == old(providers) + [Stored(handle, p, tag)]
    {
      var pix := |providers|;
      StoredRows(providers, Stored(handle, p, tag));
      hide Components, Exprs, Entries;
      providers := providers + [Stored(handle, p, tag)];
      CommitComponents(p, pix);
      if p.engine.Some? {
        exprs := exprs + [ExprEntry(p.engine.value.lang.value, pix)];
      } else {
        assert exprs + ExprOf(p, pix) == exprs;
      }
    }

    method Emit(es: seq<Event>)
      modifies this`events
      ensures events == old(events) + es
    {
      events := events + es;
    }

    /** After the checks and the init hook: make room and commit, or undo the start. */
    method StoreStarted(handle: Option<nat>, p: Provider, tag: string, faults: Faults) returns (ok: bool)
      requires Valid() && WellTyped(p) && Preflight(providers, p) == Ok
      modifies this
      ensures Valid() && providers == (if ok then old(providers) + [Stored(handle, p, tag)] else old(providers))
      ensures events == old(events) + if ok then [] else ShutdownOf(p) + CloseOf(handle)
    {
      hide Components, Exprs;
      ok := Reserve(p, faults);
      if ok {
        Commit(handle, p, tag);
      } else {
        Emit(ShutdownOf(p));
        Emit(CloseOf(handle));
      }
    }

    method TryRegister(handle: Option<nat>, prov: Option<Provider>, tag: string, faults: Faults) returns (code: Code)
      requires Valid() && (prov.Some? ==> WellTyped(prov.value))
      modifies this
      ensures Valid() && events == old(events) + RegisterValidated(old(providers), handle, prov, tag, code != Internal).events
      ensures var d := RegisterValidated(old(providers), handle, prov, tag, code != Internal);
              providers == d.ps && code == d.code
    {
      hide Components, Exprs, CloseOf, ShutdownOf;
      if prov == None {
        Emit(CloseOf(handle));
        return Invalid;
      }
      var p := prov.value;
      code := PreflightOf(p);
      PreflightCodes(providers, p);
      hide Preflight;
      if code != Ok {
        Emit(CloseOf(handle));
        return;
      }
      if p.init.Some? && p.init.value != 0 {
        Emit(CloseOf(handle));
        return HookFailed(p.init.value);
      }
      Emit([Started(p)]);
      var stored := StoreStarted(handle, p, tag, faults);
      UndoneEvents(old(events), p, handle);
      return if stored then Ok else Internal;
    }

    method PreflightOf(p: Provider) returns (code: Code)
      requires Valid() && WellTyped(p)
      ensures code == Preflight(providers, p)
    {
      if p.abi != ABI_VERSION { return Unsupported; }
      if !p.identified || (p.count > 0 && p.components == None) { return Invalid; }
      var names := CheckComponents(p);
      if !names { return Invalid; }
      var engine := CheckEngine(p);
      return if engine then Ok else Invalid;
    }

    method IsTaken(tag: string) returns (taken: bool)
      ensures taken == LabelTaken(providers, tag)
    {
      var i := 0;
      while i < |providers|
        invariant i <= |providers| && forall k :: 0 <= k < i ==> providers[k].tag != tag
      {
        if providers[i].tag == tag { return true; }
        i := i + 1;
      }
      return false;
    }

    /** betl_registry_load. */
    method LoadPath(path: string, handle: Option<nat>, symbol: bool, entry: Option<Provider>, faults: Faults)
      returns (code: Code)
      requires Valid() && (entry.Some? ==> WellTyped(entry.value))
      modifies this
      ensures Valid() && events == old(events) + Step(old(providers), Load(path, handle, symbol, entry, code != Internal)).events
      ensures var d := Step(old(providers), Load(path, handle, symbol, entry, code != Internal));
              providers == d.ps && code == d.code
    {
      hide RegisterValidated, Components, Exprs;
      var taken := IsTaken(path);
      if taken { return Invalid; }
      if handle == None { return Io; }
      Emit([Opened(handle.value)]);
      if !symbol {
        Emit([Closed(handle.value)]);
        assert [Opened(handle.value), Closed(handle.value)] == [Opened(handle.value)] + [Closed(handle.value)];
        return Io;
      }
      code := TryRegister(handle, entry, path, faults);
    }

    /** betl_registry_register. */
    method RegisterInProcess(prov: Option<Provider>, tag: Option<string>, faults: Faults) returns (code: Code)
      requires Valid() && (prov.Some? ==> WellTyped(prov.value))
      modifies this
      ensures Valid() && events == old(events) + Step(old(providers), Register(prov, tag, code != Internal)).events
      ensures var d := Step(old(providers), Register(prov, tag, code != Internal));
              providers == d.ps && code == d.code
    {
      if prov == None { return Invalid; }
      var l := if tag.Some? then tag.value else "<builtin>";
      var taken := IsTaken(l);
      if taken { return Invalid; }
      code := TryRegister(None, prov, l, faults);
    }

    /** betl_registry_destroy: providers go in reverse load order. */
    method TearDown()
      requires Valid()
      modifies this`events
      ensures events == old(events) + Destroy(providers)
    {
      var i := |providers|;
      assert providers[..i] == providers;
      hide Destroy;
      while i > 0
        invariant i <= |providers| && events + Destroy(providers[..i]) == old(events) + Destroy(providers)
      {
        i := i - 1;
        var lp := providers[i];
        DestroyLast(providers[..i + 1], events);
        assert providers[..i + 1][..i] == providers[..i];
        Emit(ShutdownOf(lp.prov));
        Emit(CloseOf(lp.handle));
      }
      DestroyNone(events);
    }
  }

  lemma PreflightCodes(ps: seq<Stored>, p: Provider)
    ensures Preflight(ps, p) != Internal
  {
    hide ComponentsAcceptable, EngineAcceptable;
  }

  lemma UndoneEvents(before: seq<Event>, p: Provider, handle: Option<nat>)
    ensures before + [Started(p)] + (ShutdownOf(p) + CloseOf(handle)) == before + ([Started(p)] + ShutdownOf(p) + CloseOf(handle))
    ensures before + [Started(p)] + [] == before + [Started(p)]
  {
    hide *;
  }

  lemma StoredRows(ps: seq<Stored>, s: Stored)
    ensures Components(ps + [s]) == Components(ps) + Entries(s.prov, |ps|)
    ensures Exprs(ps + [s]) == Exprs(ps) + ExprOf(s.prov, |ps|)
  {
    assert (ps + [s])[..|ps|] == ps;
  }

  lemma DestroyLast(ps: seq<Stored>, before: seq<Event>)
    requires ps != []
    ensures var last := ps[|ps| - 1];
            before + Destroy(ps) == before + ShutdownOf(last.prov) + CloseOf(last.handle) + Destroy(ps[..|ps| - 1])
  {
    var last := ps[|ps| - 1];
    var rest := Destroy(ps[..|ps| - 1]);
    assert Destroy(ps) == ShutdownOf(last.prov) + CloseOf(last.handle) + rest;
    Regroup(before, ShutdownOf(last.prov), CloseOf(last.handle), rest);
    hide *;
  }

  lemma Regroup(a: seq<Event>, b: seq<Event>, c: seq<Event>, d: seq<Event>)
    ensures a + (b + c + d) == a + b + c + d
  {}

  lemma DestroyNone(before: seq<Event>)
    ensures before + Destroy([]) == before
  {}
}
