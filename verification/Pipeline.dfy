/** A page request end to end: extract the keys, hydrate them, resolve the page. */
module Pipeline {
  import opened Common
  import opened Json
  import H = Hydrator
  import PageTheorems
  import Refs
  import Resolver
  import Validator

  /** The part of the source registry that the resolver reads. */
  function Types(reg: H.Registry): Refs.Registry { map k | k in reg :: Refs.Source(reg[k].returnType, reg[k].critical) }

  datatype Error = HydrateFailed | ResolveFailed(error: Resolver.SectionError)

  function EnvOf(reg: H.Registry, hydrated: map<string, Json>, missing: seq<string>): Refs.Env {
    Refs.Env(Types(reg), hydrated, set k | k in missing)
  }

  /** The page resolved from the fates of its keys. */
  ghost function PageOf(q: H.Ask, sections: seq<Json>, req: Refs.Request): Result<seq<Json>, Resolver.SectionError> {
    Resolver.ResolvePage(sections, FateEnv(q), req)
  }

  ghost function FateEnv(q: H.Ask): Refs.Env {
    Refs.Env(Types(q.reg),
          map k | k in q.keys && H.FateOf(q, k).Found? :: H.FateOf(q, k).v,
          set k | k in q.keys && H.FateOf(q, k).Missed?)
  }

  /** Every key of the page comes back with a value of its declared type. */
  ghost predicate Served(q: H.Ask, keys: set<string>) {
    forall k :: k in keys ==> H.FateOf(q, k).Found? && H.FateOf(q, k).v != Null && Resolver.TypeMatches(FateEnv(q), k, H.FateOf(q, k).v)
  }

  /** Hydration fails the page: a fatal failure came first that is no deadline or cancellation, or the caller is gone anyway. */
  ghost predicate Fails(q: H.Ask, parentDone: bool, first: Option<string>) {
    first.Some? && (parentDone || !H.ByDeadline(q, first.value))
  }

  /** Every reference in the section bodies is answered by what hydration found, or has a default. */
  ghost predicate Answered(q: H.Ask, sections: seq<Json>) {
    forall i :: 0 <= i < |sections| && sections[i].Obj? ==> PageTheorems.SectionAnswered(sections[i], FateEnv(q))
  }

  /** `first` is a key of the hydration task that failed first, if any did fatally. */
  method RunPipeline(sections: seq<Json>, hydrator: H.Hydrator, job: H.Job, req: Refs.Request, parentDone: bool,
                     direct: string -> H.Answer<Json>, fetch: (string, seq<string>) -> H.Answer<H.Batch>)
    returns (r: Result<seq<Json>, Error>, ghost q: H.Ask, ghost first: Option<string>)
    requires H.WellKeyed(hydrator.reg)
    modifies hydrator`cache
    ensures q.reg == hydrator.reg && q.batches == hydrator.batches && q.cache == old(hydrator.cache) && q.job == job
    ensures q.direct == direct && q.fetch == fetch
    ensures H.NoDuplicates(q.keys) && SetOf(q.keys) == Refs.PageKeys(sections)
    ensures first.None? <==> forall k :: k in q.keys ==> !H.Fatal(q, k)
    ensures first.Some? ==> first.value in q.keys && H.Fatal(q, first.value)
    ensures r == Err(HydrateFailed) <==> Fails(q, parentDone, first)
    ensures r != Err(HydrateFailed) ==>
      r == match PageOf(q, sections, req) case Ok(page) => Ok(page) case Err(e) => Err(ResolveFailed(e))
    ensures PageTheorems.Plain(sections) && Validator.Valid(sections, Types(hydrator.reg)) ==>
      (r.Ok? <==> !Fails(q, parentDone, first) && Answered(q, sections))
    ensures PageTheorems.Plain(sections) && Validator.Valid(sections, Types(hydrator.reg)) && Served(q, Refs.PageKeys(sections)) ==> r.Ok?
  {
    var refKeys := Refs.ExtractRefKeys(sections);
    H.DedupeKeeps(refKeys);
    q := H.Ask(hydrator.reg, hydrator.batches, hydrator.cache, job, H.Dedupe(refKeys), direct, fetch);
    assert forall k :: k in q.keys <==> k in SetOf(refKeys);
    var hydrated, missing, failed;
    hydrated, missing, failed, first := hydrator.Hydrate(job, refKeys, parentDone, direct, fetch);
    LostKeys(q);
    EnvsAgree(q, refKeys, parentDone, hydrated, missing, failed, first);
    PageResolves(q, sections, req);
    if failed {
      return Err(HydrateFailed), q, first;
    }
    var page := Resolver.Resolve(sections, EnvOf(hydrator.reg, hydrated, missing), req);
    r := match page case Ok(p) => Ok(p) case Err(e) => Err(ResolveFailed(e));
  }

  lemma LostKeys(q: H.Ask)
    ensures forall k :: k in q.keys ==> (H.FateOf(q, k).Lost? <==> H.Fatal(q, k))
    ensures forall k :: k in q.keys && H.FateOf(q, k).Lost? ==> (H.FateOf(q, k).deadline <==> H.ByDeadline(q, k))
  {
    forall k | k in q.keys
      ensures H.FateOf(q, k).Lost? <==> H.Fatal(q, k)
      ensures H.FateOf(q, k).Lost? ==> (H.FateOf(q, k).deadline <==> H.ByDeadline(q, k))
    {
      H.LostIff(q, k);
    }
  }

  /** What hydration returns is what the fates say. */
  lemma EnvsAgree(q: H.Ask, refKeys: seq<string>, parentDone: bool,
                  hydrated: map<string, Json>, missing: seq<string>, err: bool, first: Option<string>)
    requires H.Requested(q, refKeys) && H.IsHydrated(q, refKeys, parentDone, hydrated, missing, err, first)
    ensures EnvOf(q.reg, hydrated, missing) == FateEnv(q)
  {
    assert EnvOf(q.reg, hydrated, missing).hydrated == FateEnv(q).hydrated;
    assert EnvOf(q.reg, hydrated, missing).missing == FateEnv(q).missing;
  }

  /** The page of a validated config, in full and in part. */
  lemma PageResolves(q: H.Ask, sections: seq<Json>, req: Refs.Request)
    requires SetOf(q.keys) == Refs.PageKeys(sections)
    ensures PageTheorems.Plain(sections) && Validator.Valid(sections, Types(q.reg)) ==>
      (PageOf(q, sections, req).Ok? <==> Answered(q, sections))
    ensures PageTheorems.Plain(sections) && Validator.Valid(sections, Types(q.reg)) && Served(q, Refs.PageKeys(sections)) ==>
      PageOf(q, sections, req).Ok? && forall k :: k in q.keys ==> !H.FateOf(q, k).Lost?
  {
    if PageTheorems.Plain(sections) && Validator.Valid(sections, Types(q.reg)) {
      PageTheorems.PageResolvesIff(sections, FateEnv(q), req);
      if Served(q, Refs.PageKeys(sections)) {
        ServedPageResolves(q, sections, req);
      }
    }
  }

  /** If every registered source has a fetch or a batch, hydration drops no key of a validated page. */
  lemma NoKeyIsDropped(q: H.Ask, sections: seq<Json>, k: string)
    requires PageTheorems.Plain(sections) && Validator.Valid(sections, Types(q.reg)) && k in Refs.PageKeys(sections)
    requires forall s :: s in q.reg ==> q.reg[s].batch != "" || q.reg[s].hasFetch
    ensures !H.FateOf(q, k).Skipped?
  {
    PageTheorems.KeysAreKnown(sections, Types(q.reg), k);
  }

  /** A validated page whose keys are all served always resolves. */
  lemma ServedPageResolves(q: H.Ask, sections: seq<Json>, req: Refs.Request)
    requires SetOf(q.keys) == Refs.PageKeys(sections)
    requires PageTheorems.Plain(sections) && Validator.Valid(sections, Types(q.reg)) && Served(q, Refs.PageKeys(sections))
    ensures PageOf(q, sections, req).Ok?
    ensures forall k :: k in q.keys ==> !H.FateOf(q, k).Lost?
  {
    var env := FateEnv(q);
    forall k | k in Refs.PageKeys(sections) ensures Resolver.Hit(env, k) && Resolver.TypeMatches(env, k, env.hydrated[k]) {
      assert k in SetOf(q.keys);
    }
    forall k | k in q.keys ensures !H.FateOf(q, k).Lost? {
      assert k in SetOf(q.keys);
    }
    PageTheorems.ValidatedPageResolves(sections, env, req);
  }

  /** With answering sources the page does not depend on what Redis holds, nor on the order in which keys are asked for. */
  lemma PageIgnoresCache(a: H.Ask, b: H.Ask, truth: map<string, Json>, sections: seq<Json>, req: Refs.Request)
    requires a.reg == b.reg && a.batches == b.batches
    requires SetOf(a.keys) == Refs.PageKeys(sections) == SetOf(b.keys)
    requires H.Answers(a, truth) && H.Coherent(a, truth) && H.Answers(b, truth) && H.Coherent(b, truth)
    requires PageTheorems.Plain(sections) && Validator.Valid(sections, Types(a.reg))
    ensures PageOf(a, sections, req) == PageOf(b, sections, req)
  {
    forall k | k in Refs.PageKeys(sections) ensures k in a.keys && k in b.keys && H.FateOf(a, k) == H.FateOf(b, k) {
      assert k in SetOf(a.keys) && k in SetOf(b.keys);
      H.TruthComesOut(a, truth, k);
      H.TruthComesOut(b, truth, k);
    }
    PageTheorems.PageDependsOnKeys(sections, FateEnv(a), FateEnv(b), req);
  }
}
