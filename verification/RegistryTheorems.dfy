/** What any sequence of loads and registrations keeps, and what destroying balances. */
module RegistryTheorems {
  import opened Text
  import opened Registry

  // ---------------------------------------------------------------- one call

  /** A call that fails leaves what is registered alone; one that succeeds adds one provider. */
  lemma StepIsTransaction(ps: seq<Stored>, op: Op)
    ensures var d := Step(ps, op);
            if d.code != Ok then d.ps == ps
            else |d.ps| == |ps| + 1 && d.ps[..|ps|] == ps && Preflight(ps, d.ps[|ps|].prov) == Ok
  {
    hide Preflight, LabelTaken;
  }

  // ---------------------------------------------------------------- what is accepted

  /** Some registered component has the name. */
  ghost predicate NameTaken(ps: seq<Stored>, name: string) {
    exists k, i :: 0 <= k < |ps| && ps[k].prov.components.Some? && 0 <= i < |ps[k].prov.components.value|
                   && ps[k].prov.components.value[i] == Some(name)
  }

  ghost predicate LangTaken(ps: seq<Stored>, lang: string) {
    exists k :: 0 <= k < |ps| && ps[k].prov.engine.Some? && ps[k].prov.engine.value.lang == Some(lang)
  }

  /** Every component name is there, new to the registry and different from the others. */
  ghost predicate NamesAreNew(ps: seq<Stored>, names: seq<Option<string>>) {
    && (forall i :: 0 <= i < |names| ==> names[i].Some? && !NameTaken(ps, names[i].value))
    && (forall i, j :: 0 <= i < j < |names| ==> names[i] != names[j])
  }

  /** The engine has everything an engine needs and a language that is new. */
  ghost predicate EngineIsNew(ps: seq<Stored>, e: Engine) {
    e.complete && e.lang.Some? && e.lang.value != "" && !LangTaken(ps, e.lang.value)
  }

  /** No stored component is without a name. */
  predicate AllNamed(ps: seq<Stored>) {
    forall k :: 0 <= k < |ps| && ps[k].prov.components.Some? ==> NamesPresent(ps[k].prov)
  }

  /** A descriptor is registered exactly when it is for version 1 of the interface, names
      itself, has the components and the engine as they must be, its hook succeeds and memory
      suffices; otherwise the code tells which came first, and nothing is registered. */
  lemma AcceptedExactly(ps: seq<Stored>, handle: Option<nat>, p: Provider, tag: string, grows: bool)
    requires AllNamed(ps)
    ensures var d := RegisterValidated(ps, handle, Some(p), tag, grows);
            var fit := && p.identified && (p.count > 0 ==> p.components.Some?)
                       && (p.components.Some? ==> NamesAreNew(ps, p.components.value))
                       && (p.engine.Some? ==> EngineIsNew(ps, p.engine.value));
            && d.code == (if p.abi != 1 then Unsupported
                          else if !fit then Invalid
                          else if p.init.Some? && p.init.value != 0 then HookFailed(p.init.value)
                          else if !grows then Internal
                          else Ok)
            && d.ps == (if d.code == Ok then ps + [Stored(handle, p, tag)] else ps)
  {
    NamesDecide(ps, p);
    EngineDecides(ps, p);
    hide ComponentsAcceptable, EngineAcceptable, NamesAreNew, EngineIsNew;
  }

  lemma NamesDecide(ps: seq<Stored>, p: Provider)
    requires AllNamed(ps)
    ensures ComponentsAcceptable(ps, p) <==> (p.components.Some? ==> NamesAreNew(ps, p.components.value))
  {
    if p.components.Some? {
      var names := p.components.value;
      forall i | 0 <= i < |names| && names[i].Some?
        ensures FindComponent(Components(ps), names[i].value).None? <==> !NameTaken(ps, names[i].value)
      {
        TakenIsFound(ps, names[i].value);
      }
      hide NameTaken, AllNamed;
    }
  }

  lemma EngineDecides(ps: seq<Stored>, p: Provider)
    ensures EngineAcceptable(ps, p) <==> (p.engine.Some? ==> EngineIsNew(ps, p.engine.value))
  {
    if p.engine.Some? && p.engine.value.lang.Some? { LangTakenIsFound(ps, p.engine.value.lang.value); }
    hide LangTaken;
  }

  lemma {:induction false} TakenIsFound(ps: seq<Stored>, name: string)
    requires AllNamed(ps)
    ensures FindComponent(Components(ps), name).Some? <==> NameTaken(ps, name)
    decreases |ps|
  {
    if ps != [] {
      var k := |ps| - 1;
      TakenIsFound(ps[..k], name);
      FoundInEither(Components(ps[..k]), Entries(ps[k].prov, k), name);
      EntryFound(ps[k].prov, k, name);
      TakenInEither(ps, name);
      hide NameTaken, NamesPresent, Entries, FindComponent;
    }
  }

  lemma {:induction false} FoundInEither(es: seq<ComponentEntry>, more: seq<ComponentEntry>, name: string)
    ensures FindComponent(es + more, name).Some? <==> FindComponent(es, name).Some? || FindComponent(more, name).Some?
    decreases |es|
  {
    if es == [] {
      assert es + more == more;
    } else {
      assert (es + more)[1..] == es[1..] + more;
      FoundInEither(es[1..], more, name);
    }
  }

  lemma EntryFound(p: Provider, pix: nat, name: string)
    requires p.components.Some? ==> NamesPresent(p)
    ensures FindComponent(Entries(p, pix), name).Some?
       <==> p.components.Some? && exists i :: 0 <= i < |p.components.value| && p.components.value[i] == Some(name)
  {
    if p.components.Some? { EntryFoundFrom(p, pix, 0, name); }
  }

  lemma {:induction false} EntryFoundFrom(p: Provider, pix: nat, i: nat, name: string)
    requires NamesPresent(p) && i <= |p.components.value|
    ensures FindComponent(EntriesFrom(p, pix, i), name).Some?
       <==> exists k :: i <= k < |p.components.value| && p.components.value[k] == Some(name)
    decreases |p.components.value| - i
  {
    if i < |p.components.value| {
      EntryFoundFrom(p, pix, i + 1, name);
      var es := EntriesFrom(p, pix, i);
      assert es[1..] == EntriesFrom(p, pix, i + 1);
    }
  }

  lemma TakenInEither(ps: seq<Stored>, name: string)
    requires ps != []
    ensures var k := |ps| - 1; var p := ps[k].prov;
            NameTaken(ps, name)
            <==> NameTaken(ps[..k], name)
                 || (p.components.Some? && exists i :: 0 <= i < |p.components.value| && p.components.value[i] == Some(name))
  {
    var k := |ps| - 1;
    if NameTaken(ps[..k], name) {
      var j, i :| 0 <= j < |ps[..k]| && ps[..k][j].prov.components.Some? && 0 <= i < |ps[..k][j].prov.components.value|
                  && ps[..k][j].prov.components.value[i] == Some(name);
      assert ps[j] == ps[..k][j];
    }
    if NameTaken(ps, name) {
      var j, i :| 0 <= j < |ps| && ps[j].prov.components.Some? && 0 <= i < |ps[j].prov.components.value|
                  && ps[j].prov.components.value[i] == Some(name);
      if j < k { assert ps[j] == ps[..k][j]; }
    }
  }

  lemma {:induction false} LangTakenIsFound(ps: seq<Stored>, lang: string)
    ensures FindExpr(Exprs(ps), lang).Some? <==> LangTaken(ps, lang)
    decreases |ps|
  {
    if ps != [] {
      var k := |ps| - 1;
      LangTakenIsFound(ps[..k], lang);
      LangFoundInEither(Exprs(ps[..k]), ExprOf(ps[k].prov, k), lang);
      LangFound(ps[k].prov, k, lang);
      LangTakenInEither(ps, lang);
      hide LangTaken, ExprOf, FindExpr;
    } else {
      hide FindExpr;
      assert FindExpr([], lang) == None by { NoLang(lang); }
    }
  }

  lemma NoLang(lang: string)
    ensures FindExpr([], lang) == None
  {}

  lemma LangFound(p: Provider, pix: nat, lang: string)
    ensures FindExpr(ExprOf(p, pix), lang).Some? <==> p.engine.Some? && p.engine.value.lang == Some(lang)
  {}

  lemma LangTakenInEither(ps: seq<Stored>, lang: string)
    requires ps != []
    ensures var k := |ps| - 1; var p := ps[k].prov;
            LangTaken(ps, lang) <==> LangTaken(ps[..k], lang) || (p.engine.Some? && p.engine.value.lang == Some(lang))
  {
    var k := |ps| - 1;
    assert forall j :: 0 <= j < k ==> ps[..k][j] == ps[j];
  }

  lemma {:induction false} LangFoundInEither(es: seq<ExprEntry>, more: seq<ExprEntry>, lang: string)
    ensures FindExpr(es + more, lang).Some? <==> FindExpr(es, lang).Some? || FindExpr(more, lang).Some?
    decreases |es|
  {
    if es == [] {
      assert es + more == more;
    } else {
      assert (es + more)[1..] == es[1..] + more;
      LangFoundInEither(es[1..], more, lang);
    }
  }

  lemma StepIsNamed(ps: seq<Stored>, op: Op)
    requires AllNamed(ps)
    ensures AllNamed(Step(ps, op).ps)
  {
    StepIsTransaction(ps, op);
    var d := Step(ps, op);
    if d.code == Ok {
      hide Step, NamesPresent;
      assert forall k :: 0 <= k < |ps| ==> d.ps[k] == d.ps[..|ps|][k];
    }
  }

  // ---------------------------------------------------------------- uniqueness

  predicate UniqueNames(ps: seq<Stored>) {
    forall i, j :: 0 <= i < j < |Components(ps)| ==> Components(ps)[i].name != Components(ps)[j].name
  }

  predicate UniqueLangs(ps: seq<Stored>) {
    forall i, j :: 0 <= i < j < |Exprs(ps)| ==> Exprs(ps)[i].lang != Exprs(ps)[j].lang
  }

  lemma {:induction false} NotFoundMeansNone(es: seq<ComponentEntry>, name: string)
    ensures FindComponent(es, name).None? <==> forall i :: 0 <= i < |es| ==> es[i].name != name
  {
    if es != [] {
      NotFoundMeansNone(es[1..], name);
      assert forall i :: 0 < i < |es| ==> es[i] == es[1..][i - 1];
    }
  }

  lemma {:induction false} LangNotFoundMeansNone(es: seq<ExprEntry>, lang: string)
    ensures FindExpr(es, lang).None? <==> forall i :: 0 <= i < |es| ==> es[i].lang != lang
  {
    if es != [] {
      LangNotFoundMeansNone(es[1..], lang);
      assert forall i :: 0 < i < |es| ==> es[i] == es[1..][i - 1];
    }
  }

  lemma {:induction false} EntryAt(p: Provider, pix: nat, i: nat, k: nat)
    requires NamesPresent(p) && i <= |p.components.value| && k < |EntriesFrom(p, pix, i)|
    ensures EntriesFrom(p, pix, i)[k] == ComponentEntry(p.components.value[i + k].value, pix, i + k)
    decreases k
  {
    if k > 0 { EntryAt(p, pix, i + 1, k - 1); }
  }

  /** An accepted provider's own entries are new and different from each other. */
  lemma NewEntries(ps: seq<Stored>, p: Provider)
    requires ComponentsAcceptable(ps, p)
    ensures var es := Entries(p, |ps|);
            && (forall k, i :: 0 <= k < |es| && 0 <= i < |Components(ps)| ==> Components(ps)[i].name != es[k].name)
            && (forall j, k :: 0 <= j < k < |es| ==> es[j].name != es[k].name)
  {
    var es := Entries(p, |ps|);
    if NamesPresent(p) {
      var names := p.components.value;
      forall k | 0 <= k < |es| ensures es[k].name == names[k].value { EntryAt(p, |ps|, 0, k); }
      hide EntriesFrom, Entries, Components, FindComponent;
      forall k, i | 0 <= k < |es| && 0 <= i < |Components(ps)|
        ensures Components(ps)[i].name != es[k].name
      {
        NotFoundMeansNone(Components(ps), names[k].value);
      }
      assert forall j, k :: 0 <= j < k < |es| ==> names[j] != names[k];
    }
  }

  /** No call ever makes two components share a name or two engines a language. */
  lemma StepKeepsNamesUnique(ps: seq<Stored>, op: Op)
    requires UniqueNames(ps) && UniqueLangs(ps)
    ensures UniqueNames(Step(ps, op).ps) && UniqueLangs(Step(ps, op).ps)
  {
    StepIsTransaction(ps, op);
    var d := Step(ps, op);
    if d.code == Ok {
      var s := d.ps[|ps|];
      assert d.ps == ps + [s];
      StoredRows(ps, s);
      NewEntries(ps, s.prov);
      if s.prov.engine.Some? { LangNotFoundMeansNone(Exprs(ps), s.prov.engine.value.lang.value); }
      hide Components, Exprs, Entries, Step, FindExpr;
    }
  }

  lemma {:induction false} FoundInPrefix(es: seq<ComponentEntry>, more: seq<ComponentEntry>, name: string)
    requires FindComponent(es, name).Some?
    ensures FindComponent(es + more, name) == FindComponent(es, name)
  {
    if es[0].name != name {
      FoundInPrefix(es[1..], more, name);
      assert (es + more)[1..] == es[1..] + more;
    }
  }

  lemma {:induction false} LangFoundInPrefix(es: seq<ExprEntry>, more: seq<ExprEntry>, lang: string)
    requires FindExpr(es, lang).Some?
    ensures FindExpr(es + more, lang) == FindExpr(es, lang)
  {
    if es[0].lang != lang {
      LangFoundInPrefix(es[1..], more, lang);
      assert (es + more)[1..] == es[1..] + more;
    }
  }

  /** A lookup that succeeded gives the same answer after any further call. */
  lemma LookupsAreStable(ps: seq<Stored>, op: Op, name: string)
    ensures FindComponent(Components(ps), name).Some? ==>
              FindComponent(Components(Step(ps, op).ps), name) == FindComponent(Components(ps), name)
    ensures FindExpr(Exprs(ps), name).Some? ==>
              FindExpr(Exprs(Step(ps, op).ps), name) == FindExpr(Exprs(ps), name)
  {
    StepIsTransaction(ps, op);
    var d := Step(ps, op);
    hide Step, Components, Exprs, FindComponent, FindExpr, Preflight;
    if d.code == Ok {
      var s := d.ps[|ps|];
      assert d.ps == ps + [s];
      StoredRows(ps, s);
      if FindComponent(Components(ps), name).Some? { FoundInPrefix(Components(ps), Entries(s.prov, |ps|), name); }
      if FindExpr(Exprs(ps), name).Some? { LangFoundInPrefix(Exprs(ps), ExprOf(s.prov, |ps|), name); }
    }
  }

  /** Every component of an accepted provider is found, and found as that provider's. */
  lemma RegisteredIsFound(ps: seq<Stored>, op: Op, k: nat)
    requires Step(ps, op).code == Ok && UniqueNames(ps)
    requires var p := Step(ps, op).ps[|Step(ps, op).ps| - 1].prov; p.components.Some? && k < |p.components.value|
    ensures var p := Step(ps, op).ps[|ps|].prov;
            && NamesPresent(p)
            && FindComponent(Components(Step(ps, op).ps), p.components.value[k].value)
               == Some(ComponentEntry(p.components.value[k].value, |ps|, k))
  {
    StepIsTransaction(ps, op);
    var s := Step(ps, op).ps[|ps|];
    assert Step(ps, op).ps == ps + [s];
    StoredRows(ps, s);
    var name := s.prov.components.value[k].value;
    hide Step;
    EntryAt(s.prov, |ps|, 0, k);
    NewEntries(ps, s.prov);
    hide Components, Entries, EntriesFrom;
    FindSkips(Components(ps), Entries(s.prov, |ps|), name);
    FindAt(Entries(s.prov, |ps|), k);
  }

  lemma {:induction false} FindSkips(es: seq<ComponentEntry>, more: seq<ComponentEntry>, name: string)
    requires FindComponent(es, name).None?
    ensures FindComponent(es + more, name) == FindComponent(more, name)
  {
    if es == [] {
      assert es + more == more;
    } else {
      FindSkips(es[1..], more, name);
      assert (es + more)[1..] == es[1..] + more;
    }
  }

  lemma {:induction false} FindAt(es: seq<ComponentEntry>, k: nat)
    requires k < |es| && forall i, j :: 0 <= i < j < |es| ==> es[i].name != es[j].name
    ensures FindComponent(es, es[k].name) == Some(es[k])
  {
    if k > 0 { FindAt(es[1..], k - 1); }
  }

  // ---------------------------------------------------------------- runs

  /** The registry after a run, and everything the outside world has seen. */
  function Run(ops: seq<Op>): Done {
    if ops == [] then Done([], [], Ok)
    else
      var d := Run(ops[..|ops| - 1]);
      var e := Step(d.ps, ops[|ops| - 1]);
      Done(e.ps, d.events + e.events, e.code)
  }

  /** So what is accepted is as AcceptedExactly says in every run. */
  lemma {:induction false} RunIsNamed(ops: seq<Op>)
    ensures AllNamed(Run(ops).ps)
  {
    if ops != [] {
      RunIsNamed(ops[..|ops| - 1]);
      StepIsNamed(Run(ops[..|ops| - 1]).ps, ops[|ops| - 1]);
      hide AllNamed, Step;
    }
  }

  lemma {:induction false} RunKeepsNamesUnique(ops: seq<Op>)
    ensures UniqueNames(Run(ops).ps) && UniqueLangs(Run(ops).ps)
  {
    if ops != [] {
      RunKeepsNamesUnique(ops[..|ops| - 1]);
      StepKeepsNamesUnique(Run(ops[..|ops| - 1]).ps, ops[|ops| - 1]);
      hide UniqueNames, UniqueLangs, Step;
    }
  }

  function Count(es: seq<Event>, e: Event): nat { multiset(es)[e] }

  /** Stored providers holding a handle, and stored copies of a provider. */
  function Holding(ps: seq<Stored>, h: nat): nat {
    if ps == [] then 0
    else Holding(ps[..|ps| - 1], h) + (if ps[|ps| - 1].handle == Some(h) then 1 else 0)
  }

  function Copies(ps: seq<Stored>, p: Provider): nat {
    if ps == [] then 0 else Copies(ps[..|ps| - 1], p) + (if ps[|ps| - 1].prov == p then 1 else 0)
  }

  /** Up to now every handle opened was closed or is held, and every provider started was
      shut down, if it has a hook for that, or is stored. */
  predicate Balanced(ps: seq<Stored>, es: seq<Event>, h: nat, p: Provider) {
    && Count(es, Opened(h)) == Count(es, Closed(h)) + Holding(ps, h)
    && (if p.hasShutdown then Count(es, Started(p)) == Count(es, ShutDown(p)) + Copies(ps, p)
        else Count(es, ShutDown(p)) == 0)
  }

  lemma CountsOfPieces(handle: Option<nat>, q: Provider, h: nat, p: Provider)
    ensures Count(CloseOf(handle), Opened(h)) == 0 && Count(CloseOf(handle), Closed(h)) == (if handle == Some(h) then 1 else 0)
    ensures Count(CloseOf(handle), Started(p)) == 0 && Count(CloseOf(handle), ShutDown(p)) == 0
    ensures Count(ShutdownOf(q), Opened(h)) == 0 && Count(ShutdownOf(q), Closed(h)) == 0 && Count(ShutdownOf(q), Started(p)) == 0
    ensures Count(ShutdownOf(q), ShutDown(p)) == (if q == p && p.hasShutdown then 1 else 0)
  {}

  /** What a list of events does to the four counts. */
  datatype Tally = Tally(opens: nat, closes: nat, starts: nat, stops: nat)

  function TallyOf(es: seq<Event>, h: nat, p: Provider): Tally {
    Tally(Count(es, Opened(h)), Count(es, Closed(h)), Count(es, Started(p)), Count(es, ShutDown(p)))
  }

  function Both(a: Tally, b: Tally): Tally {
    Tally(a.opens + b.opens, a.closes + b.closes, a.starts + b.starts, a.stops + b.stops)
  }

  lemma TallyConcat(a: seq<Event>, b: seq<Event>, h: nat, p: Provider)
    ensures TallyOf(a + b, h, p) == Both(TallyOf(a, h, p), TallyOf(b, h, p))
  {}

  lemma TallyPieces(handle: Option<nat>, q: Provider, h: nat, p: Provider)
    ensures TallyOf(CloseOf(handle), h, p) == Tally(0, if handle == Some(h) then 1 else 0, 0, 0)
    ensures TallyOf(ShutdownOf(q), h, p) == Tally(0, 0, 0, if q == p && p.hasShutdown then 1 else 0)
    ensures TallyOf([Started(q)], h, p) == Tally(0, 0, if q == p then 1 else 0, 0)
    ensures TallyOf([], h, p) == Tally(0, 0, 0, 0)
  {
    CountsOfPieces(handle, q, h, p);
  }

  lemma TallyOpened(k: nat, h: nat, p: Provider)
    ensures TallyOf([Opened(k)], h, p) == Tally(if k == h then 1 else 0, 0, 0, 0)
    ensures TallyOf([Closed(k)], h, p) == Tally(0, if k == h then 1 else 0, 0, 0)
  {}

  /** What registering does to the counts, whatever way it ends. */
  lemma RegisterTally(ps: seq<Stored>, handle: Option<nat>, prov: Option<Provider>, tag: string, grows: bool, h: nat, p: Provider)
    ensures var d := RegisterValidated(ps, handle, prov, tag, grows);
            var t := TallyOf(d.events, h, p);
            && t.opens == 0
            && t.closes + (Holding(d.ps, h) - Holding(ps, h)) == (if handle == Some(h) then 1 else 0)
            && (p.hasShutdown ==> t.starts == t.stops + (Copies(d.ps, p) - Copies(ps, p)))
            && (!p.hasShutdown ==> t.stops == 0)
  {
    if prov.None? || Preflight(ps, prov.value) != Ok || (prov.value.init.Some? && prov.value.init.value != 0) {
      TallyPieces(handle, p, h, p);
      hide TallyOf, CloseOf, Preflight, Holding, Copies;
    } else {
      var q := prov.value;
      TallyPieces(handle, q, h, p);
      TallyUndone(handle, q, h, p);
      StoringCounts(ps, Stored(handle, q, tag), h, p);
      hide TallyOf, CloseOf, ShutdownOf, Preflight, Holding, Copies;
    }
  }

  lemma TallyUndone(handle: Option<nat>, q: Provider, h: nat, p: Provider)
    ensures TallyOf([Started(q)] + ShutdownOf(q) + CloseOf(handle), h, p)
         == Tally(0, if handle == Some(h) then 1 else 0, if q == p then 1 else 0, if q == p && p.hasShutdown then 1 else 0)
  {
    TallyPieces(handle, q, h, p);
    TallyConcat([Started(q)], ShutdownOf(q), h, p);
    TallyConcat([Started(q)] + ShutdownOf(q), CloseOf(handle), h, p);
    hide TallyOf, CloseOf, ShutdownOf;
  }

  lemma StoringCounts(ps: seq<Stored>, s: Stored, h: nat, p: Provider)
    ensures Holding(ps + [s], h) == Holding(ps, h) + (if s.handle == Some(h) then 1 else 0)
    ensures Copies(ps + [s], p) == Copies(ps, p) + (if s.prov == p then 1 else 0)
  {
    assert (ps + [s])[..|ps|] == ps;
  }

  /** What a call did to the counts agrees with what it did to the stored providers. */
  predicate Settles(t: Tally, held: int, copies: int, p: Provider) {
    && t.opens == t.closes + held
    && (p.hasShutdown ==> t.starts == t.stops + copies)
    && (!p.hasShutdown ==> t.stops == 0)
  }

  lemma OpenedThen(k: nat, es: seq<Event>, h: nat, p: Provider)
    ensures var t := TallyOf(es, h, p);
            TallyOf([Opened(k)] + es, h, p) == Tally(t.opens + (if k == h then 1 else 0), t.closes, t.starts, t.stops)
  {
    TallyOpened(k, h, p);
    TallyConcat([Opened(k)], es, h, p);
    hide TallyOf;
  }

  lemma OpenedAndClosed(k: nat, h: nat, p: Provider)
    ensures var n := if k == h then 1 else 0; TallyOf([Opened(k), Closed(k)], h, p) == Tally(n, n, 0, 0)
  {
    assert [Opened(k), Closed(k)] == [Opened(k)] + [Closed(k)];
    TallyOpened(k, h, p);
    OpenedThen(k, [Closed(k)], h, p);
    hide TallyOf;
  }

  lemma StepOfLoad(ps: seq<Stored>, op: Op)
    requires op.Load?
    ensures var d := Step(ps, op);
            if LabelTaken(ps, op.path) || op.handle.None? then d.events == [] && d.ps == ps
            else if !op.symbol then d.events == [Opened(op.handle.value), Closed(op.handle.value)] && d.ps == ps
            else
              var r := RegisterValidated(ps, op.handle, op.entry, op.path, op.grows);
              d.ps == r.ps && d.events == [Opened(op.handle.value)] + r.events
  {
    hide LabelTaken, RegisterValidated;
  }

  lemma StepOfRegister(ps: seq<Stored>, op: Op)
    requires op.Register?
    ensures var d := Step(ps, op); var l := if op.tag.Some? then op.tag.value else "<builtin>";
            if op.prov.None? || LabelTaken(ps, l) then d.events == [] && d.ps == ps
            else d == RegisterValidated(ps, None, op.prov, l, op.grows)
  {
    hide LabelTaken, RegisterValidated;
  }

  lemma NoTally(ps: seq<Stored>, h: nat, p: Provider)
    ensures Settles(TallyOf([], h, p), Holding(ps, h) - Holding(ps, h), Copies(ps, p) - Copies(ps, p), p)
  {
    TallyPieces(None, p, h, p);
    hide TallyOf, Holding, Copies;
  }

  lemma OpenCloseSettles(k: nat, h: nat, p: Provider)
    ensures Settles(TallyOf([Opened(k), Closed(k)], h, p), 0, 0, p)
  {
    OpenedAndClosed(k, h, p);
    hide TallyOf;
  }

  lemma OpenRegisterSettles(ps: seq<Stored>, k: nat, prov: Option<Provider>, tag: string, grows: bool, h: nat, p: Provider)
    ensures var r := RegisterValidated(ps, Some(k), prov, tag, grows);
            Settles(TallyOf([Opened(k)] + r.events, h, p), Holding(r.ps, h) - Holding(ps, h), Copies(r.ps, p) - Copies(ps, p), p)
  {
    RegisterTally(ps, Some(k), prov, tag, grows, h, p);
    OpenedThen(k, RegisterValidated(ps, Some(k), prov, tag, grows).events, h, p);
    hide TallyOf, Holding, Copies, RegisterValidated;
  }

  lemma RegisterSettles(ps: seq<Stored>, prov: Option<Provider>, tag: string, grows: bool, h: nat, p: Provider)
    ensures var r := RegisterValidated(ps, None, prov, tag, grows);
            Settles(TallyOf(r.events, h, p), Holding(r.ps, h) - Holding(ps, h), Copies(r.ps, p) - Copies(ps, p), p)
  {
    RegisterTally(ps, None, prov, tag, grows, h, p);
    hide TallyOf, Holding, Copies, RegisterValidated;
  }

  lemma StepTally(ps: seq<Stored>, op: Op, h: nat, p: Provider)
    ensures var d := Step(ps, op);
            Settles(TallyOf(d.events, h, p), Holding(d.ps, h) - Holding(ps, h), Copies(d.ps, p) - Copies(ps, p), p)
  {
    hide *;
    NoTally(ps, h, p);
    match op
    case Load(path, handle, symbol, entry, grows) =>
      StepOfLoad(ps, op);
      if handle.Some? {
        OpenCloseSettles(handle.value, h, p);
        OpenRegisterSettles(ps, handle.value, entry, path, grows, h, p);
      }
    case Register(prov, tag, grows) =>
      StepOfRegister(ps, op);
      RegisterSettles(ps, prov, if tag.Some? then tag.value else "<builtin>", grows, h, p);
  }

  lemma BalancedSettles(ps: seq<Stored>, es: seq<Event>, h: nat, p: Provider)
    ensures Balanced(ps, es, h, p) <==> Settles(TallyOf(es, h, p), Holding(ps, h), Copies(ps, p), p)
  {
    hide Count, Holding, Copies;
  }

  lemma SettlesBoth(a: Tally, b: Tally, held: int, copies: int, more: int, others: int, p: Provider)
    requires Settles(a, held, copies, p) && Settles(b, more, others, p)
    ensures Settles(Both(a, b), held + more, copies + others, p)
  {}

  lemma RunUnfolds(ops: seq<Op>)
    ensures ops == [] ==> Run(ops) == Done([], [], Ok)
    ensures ops != [] ==>
              var d := Run(ops[..|ops| - 1]);
              var e := Step(d.ps, ops[|ops| - 1]);
              Run(ops).ps == e.ps && Run(ops).events == d.events + e.events
  {
    hide Step;
  }

  lemma NothingBalances(h: nat, p: Provider)
    ensures Balanced([], [], h, p)
  {}

  lemma {:induction false} RunBalances(ops: seq<Op>, h: nat, p: Provider)
    ensures Balanced(Run(ops).ps, Run(ops).events, h, p)
  {
    hide *;
    RunUnfolds(ops);
    if ops == [] {
      NothingBalances(h, p);
    } else {
      var d := Run(ops[..|ops| - 1]);
      var e := Step(d.ps, ops[|ops| - 1]);
      RunBalances(ops[..|ops| - 1], h, p);
      StepTally(d.ps, ops[|ops| - 1], h, p);
      TallyConcat(d.events, e.events, h, p);
      BalancedSettles(d.ps, d.events, h, p);
      BalancedSettles(e.ps, d.events + e.events, h, p);
      SettlesBoth(TallyOf(d.events, h, p), TallyOf(e.events, h, p), Holding(d.ps, h), Copies(d.ps, p),
                  Holding(e.ps, h) - Holding(d.ps, h), Copies(e.ps, p) - Copies(d.ps, p), p);
    }
  }

  lemma DestroyUnfolds(ps: seq<Stored>, h: nat, p: Provider)
    requires ps != []
    ensures var last, rest := ps[|ps| - 1], ps[..|ps| - 1];
            && Destroy(ps) == ShutdownOf(last.prov) + CloseOf(last.handle) + Destroy(rest)
            && Holding(ps, h) == Holding(rest, h) + (if last.handle == Some(h) then 1 else 0)
            && Copies(ps, p) == Copies(rest, p) + (if last.prov == p then 1 else 0)
  {
    hide ShutdownOf, CloseOf;
  }

  lemma DestroyNothing(h: nat, p: Provider)
    ensures Destroy([]) == [] && Holding([], h) == 0 && Copies([], p) == 0
  {}

  lemma {:induction false} DestroyTally(ps: seq<Stored>, h: nat, p: Provider)
    ensures TallyOf(Destroy(ps), h, p) == Tally(0, Holding(ps, h), 0, if p.hasShutdown then Copies(ps, p) else 0)
  {
    hide *;
    TallyPieces(None, p, h, p);
    if ps == [] {
      DestroyNothing(h, p);
    } else {
      var last, rest := ps[|ps| - 1], Destroy(ps[..|ps| - 1]);
      DestroyTally(ps[..|ps| - 1], h, p);
      DestroyUnfolds(ps, h, p);
      TallyPieces(last.handle, last.prov, h, p);
      ThreeTallies(ShutdownOf(last.prov), CloseOf(last.handle), rest, h, p);
    }
  }

  lemma ThreeTallies(a: seq<Event>, b: seq<Event>, c: seq<Event>, h: nat, p: Provider)
    ensures var x, y, z := TallyOf(a, h, p), TallyOf(b, h, p), TallyOf(c, h, p);
            TallyOf(a + b + c, h, p)
            == Tally(x.opens + y.opens + z.opens, x.closes + y.closes + z.closes,
                     x.starts + y.starts + z.starts, x.stops + y.stops + z.stops)
  {
    TallyConcat(a, b, h, p);
    TallyConcat(a + b, c, h, p);
    hide TallyOf;
  }

  /** After any run and the final destroy, every handle was closed as often as it was opened
      and every started provider with a shutdown hook was shut down as often as started. */
  lemma EverythingIsReturned(ops: seq<Op>, h: nat, p: Provider)
    ensures var all := Run(ops).events + Destroy(Run(ops).ps);
            && Count(all, Opened(h)) == Count(all, Closed(h))
            && (p.hasShutdown ==> Count(all, Started(p)) == Count(all, ShutDown(p)))
            && (!p.hasShutdown ==> Count(all, ShutDown(p)) == 0)
  {
    RunBalances(ops, h, p);
    DestroyTally(Run(ops).ps, h, p);
    TallyConcat(Run(ops).events, Destroy(Run(ops).ps), h, p);
    hide Run, Destroy, Count, Holding, Copies;
  }

  // ---------------------------------------------------------------- order

  function ShutDownIn(es: seq<Event>): seq<Provider> {
    if es == [] then []
    else (if es[0].ShutDown? then [es[0].prov] else []) + ShutDownIn(es[1..])
  }

  /** Stored providers with a hook, latest first. */
  function LatestFirst(ps: seq<Stored>): seq<Provider> {
    if ps == [] then []
    else (if ps[|ps| - 1].prov.hasShutdown then [ps[|ps| - 1].prov] else []) + LatestFirst(ps[..|ps| - 1])
  }

  lemma {:induction false} ShutDownConcat(a: seq<Event>, b: seq<Event>)
    ensures ShutDownIn(a + b) == ShutDownIn(a) + ShutDownIn(b)
  {
    hide *;
    if a == [] {
      assert a + b == b;
      ShutDownNone();
      assert [] + ShutDownIn(b) == ShutDownIn(b);
    } else {
      ShutDownConcat(a[1..], b);
      ShutDownUnfold(a);
      ShutDownUnfold(a + b);
      assert (a + b)[1..] == a[1..] + b && (a + b)[0] == a[0];
      Regroup(if a[0].ShutDown? then [a[0].prov] else [], ShutDownIn(a[1..]), ShutDownIn(b));
    }
  }

  lemma Regroup(a: seq<Provider>, b: seq<Provider>, c: seq<Provider>)
    ensures a + (b + c) == a + b + c
  {}

  lemma ShutDownNone()
    ensures ShutDownIn([]) == []
  {}

  lemma ShutDownUnfold(es: seq<Event>)
    requires es != []
    ensures ShutDownIn(es) == (if es[0].ShutDown? then [es[0].prov] else []) + ShutDownIn(es[1..])
  {}

  /** Destroying shuts the stored providers down in reverse load order. */
  lemma {:induction false} DestroyReversesLoads(ps: seq<Stored>)
    ensures ShutDownIn(Destroy(ps)) == LatestFirst(ps)
  {
    if ps != [] {
      var last, rest := ps[|ps| - 1], Destroy(ps[..|ps| - 1]);
      DestroyReversesLoads(ps[..|ps| - 1]);
      var s, c := ShutdownOf(last.prov), CloseOf(last.handle);
      ShutDownConcat(s, c);
      ShutDownConcat(s + c, rest);
      PiecesShutDown(last.prov, last.handle);
      hide ShutDownIn, ShutdownOf, CloseOf;
    }
  }

  lemma PiecesShutDown(p: Provider, handle: Option<nat>)
    ensures ShutDownIn(ShutdownOf(p)) == if p.hasShutdown then [p] else []
    ensures ShutDownIn(CloseOf(handle)) == []
  {
    assert [ShutDown(p)][1..] == [];
    if handle.Some? { assert [Closed(handle.value)][1..] == []; }
  }
}
