/** The static startup graph of a browser build: what loads before any dynamic import. */
module StartupGraph {
  import opened Outcomes

  datatype Import = Import(path: string, isDynamic: bool)

  /** An empty CSS bundle name reads as none. */
  datatype Output = Output(cssBundle: Option<string>, imports: seq<Import>)

  /** The outputs, and the order in which their keys are listed. */
  datatype Metafile = Metafile(outputs: map<string, Output>, order: seq<string>)

  ghost predicate IsListed(m: Metafile) {
    forall key :: key in m.outputs <==> key in m.order
  }

  function WithSlashes(key: string): string {
    if key == "" then "" else [if key[0] == '\\' then '/' else key[0]] + WithSlashes(key[1..])
  }

  function NormalizedKey(key: string): string {
    var slashed := WithSlashes(key);
    if |slashed| >= 2 && slashed[0] == '.' && slashed[1] == '/' then slashed[2..] else slashed
  }

  /** The last listed key of that normalized form, as later map entries replace earlier ones. */
  function KeyByNormalizedPath(order: seq<string>, normalized: string): (r: Option<string>)
    ensures r.Some? ==> r.value in order && NormalizedKey(r.value) == normalized
    ensures r.None? ==> forall key :: key in order ==> NormalizedKey(key) != normalized
  {
    if order == [] then None
    else
      var n := |order| - 1;
      assert order == order[..n] + [order[n]];
      if NormalizedKey(order[n]) == normalized then Some(order[n])
      else KeyByNormalizedPath(order[..n], normalized)
  }

  function ResolveOutputKey(m: Metafile, candidate: string): (r: Option<string>)
    ensures IsListed(m) && r.Some? ==> r.value in m.outputs
    ensures candidate in m.outputs ==> r == Some(candidate)
    ensures r.Some? ==> NormalizedKey(r.value) == NormalizedKey(candidate)
  {
    if candidate in m.outputs then Some(candidate)
    else KeyByNormalizedPath(m.order, NormalizedKey(candidate))
  }

  // ---------------------------------------------------------------- what a resolved key is

  predicate IsSlash(c: char) {
    c == '/' || c == '\\'
  }

  /** The key without one leading dot and slash. */
  function Trimmed(key: string): string {
    if |key| >= 2 && key[0] == '.' && IsSlash(key[1]) then key[2..] else key
  }

  /** Two keys of one file: the same after trimming, whichever way their slashes lean. */
  predicate SamePath(a: string, b: string) {
    var s, t := Trimmed(a), Trimmed(b);
    |s| == |t| && forall i :: 0 <= i < |s| ==> s[i] == t[i] || (IsSlash(s[i]) && IsSlash(t[i]))
  }

  lemma {:induction false} SlashesAt(key: string)
    ensures |WithSlashes(key)| == |key|
    ensures forall i :: 0 <= i < |key| ==> WithSlashes(key)[i] == if key[i] == '\\' then '/' else key[i]
  {
    if key != "" {
      SlashesAt(key[1..]);
    }
  }

  lemma NormalizedIsTrimmed(key: string)
    ensures |NormalizedKey(key)| == |Trimmed(key)|
    ensures forall i :: 0 <= i < |Trimmed(key)| ==>
              NormalizedKey(key)[i] == if Trimmed(key)[i] == '\\' then '/' else Trimmed(key)[i]
  {
    SlashesAt(key);
  }

  /** Normal forms agree exactly for two keys of one file. */
  lemma NormalFormsAreOfOnePath(a: string, b: string)
    ensures NormalizedKey(a) == NormalizedKey(b) <==> SamePath(a, b)
  {
    NormalizedIsTrimmed(a);
    NormalizedIsTrimmed(b);
    if SamePath(a, b) {
      assert forall i :: 0 <= i < |NormalizedKey(a)| ==> NormalizedKey(a)[i] == NormalizedKey(b)[i];
    } else if NormalizedKey(a) == NormalizedKey(b) {
      forall i | 0 <= i < |Trimmed(a)|
        ensures Trimmed(a)[i] == Trimmed(b)[i] || (IsSlash(Trimmed(a)[i]) && IsSlash(Trimmed(b)[i]))
      {
        assert NormalizedKey(a)[i] == NormalizedKey(b)[i];
      }
    }
  }

  /** A key resolves to itself if it is an output, and else to the last listed output of the same path. */
  lemma ResolvesToTheSamePath(m: Metafile, candidate: string)
    ensures var r := ResolveOutputKey(m, candidate);
      if candidate in m.outputs then r == Some(candidate)
      else if r.None? then forall k :: 0 <= k < |m.order| ==> !SamePath(m.order[k], candidate)
      else exists k :: 0 <= k < |m.order| && IsLastOf(m.order, k, candidate) && m.order[k] == r.value
  {
    if candidate !in m.outputs {
      var r := ResolveOutputKey(m, candidate);
      if r.None? {
        forall k | 0 <= k < |m.order| ensures !SamePath(m.order[k], candidate) {
          NormalFormsAreOfOnePath(m.order[k], candidate);
        }
      } else {
        var k := LastOfPath(m.order, candidate);
      }
    }
  }

  /** The last key of that path in the list. */
  predicate IsLastOf(order: seq<string>, k: nat, candidate: string)
    requires k < |order|
  {
    SamePath(order[k], candidate) && forall later :: k < later < |order| ==> !SamePath(order[later], candidate)
  }

  lemma {:induction false} LastOfPath(order: seq<string>, candidate: string) returns (k: nat)
    requires KeyByNormalizedPath(order, NormalizedKey(candidate)).Some?
    ensures k < |order| && IsLastOf(order, k, candidate)
    ensures order[k] == KeyByNormalizedPath(order, NormalizedKey(candidate)).value
  {
    var n := |order| - 1;
    NormalFormsAreOfOnePath(order[n], candidate);
    if NormalizedKey(order[n]) == NormalizedKey(candidate) {
      k := n;
    } else {
      k := LastOfPath(order[..n], candidate);
      assert forall later :: k < later < n ==> order[later] == order[..n][later];
    }
  }

  /** The second output loads with the first: as its stylesheet or through a static import. */
  predicate Loads(m: Metafile, from: string, to: string) {
    && from in m.outputs && to != ""
    && var output := m.outputs[from];
    || (output.cssBundle.Some? && output.cssBundle.value != "" &&
        ResolveOutputKey(m, output.cssBundle.value) == Some(to))
    || (exists i :: 0 <= i < |output.imports| && LoadsImport(m, output.imports[i], to))
  }

  predicate LoadsImport(m: Metafile, imported: Import, to: string) {
    !imported.isDynamic && ResolveOutputKey(m, imported.path) == Some(to)
  }

  ghost predicate IsChain(m: Metafile, chain: seq<string>) {
    forall i :: 0 <= i < |chain| - 1 ==> Loads(m, chain[i], chain[i + 1])
  }

  ghost predicate ChainTo(m: Metafile, app: string, key: string, chain: seq<string>) {
    chain != [] && chain[0] == app && chain[|chain| - 1] == key && IsChain(m, chain)
  }

  ghost predicate Reachable(m: Metafile, app: string, key: string) {
    exists chain :: ChainTo(m, app, key, chain)
  }

  lemma ReachesItself(m: Metafile, app: string)
    ensures Reachable(m, app, app)
  {
    assert ChainTo(m, app, app, [app]);
  }

  lemma ReachesFurther(m: Metafile, app: string, key: string, next: string)
    requires Reachable(m, app, key) && Loads(m, key, next)
    ensures Reachable(m, app, next)
  {
    var chain :| ChainTo(m, app, key, chain);
    assert ChainTo(m, app, next, chain + [next]);
  }

  ghost predicate Closed(m: Metafile, visited: set<string>, pending: seq<string>) {
    forall key, next :: key in visited && Loads(m, key, next) ==> next in visited || next in pending
  }

  /** A closed set that holds the app output holds everything reachable. */
  lemma {:induction false} ClosedHoldsTheReachable(m: Metafile, visited: set<string>, app: string, chain: seq<string>)
    requires Closed(m, visited, []) && app in visited && chain != [] && chain[0] == app && IsChain(m, chain)
    ensures chain[|chain| - 1] in visited
    decreases |chain|
  {
    var n := |chain| - 1;
    if n > 0 {
      assert IsChain(m, chain[..n]);
      ClosedHoldsTheReachable(m, visited, app, chain[..n]);
      assert Loads(m, chain[n - 1], chain[n]);
    }
  }

  ghost predicate AllReachable(m: Metafile, app: string, keys: seq<string>) {
    forall key :: key in keys ==> Reachable(m, app, key)
  }

  /** Pushes one resolved key unless it is missing or empty. */
  method PushResolved(m: Metafile, app: string, key: string, candidate: string, pending: seq<string>)
    returns (pushed: seq<string>)
    requires AllReachable(m, app, pending) && Reachable(m, app, key)
    requires forall to :: ResolveOutputKey(m, candidate) == Some(to) && to != "" ==> Loads(m, key, to)
    ensures AllReachable(m, app, pushed) && pending <= pushed
    ensures forall to :: ResolveOutputKey(m, candidate) == Some(to) && to != "" ==> to in pushed
  {
    pushed := pending;
    var target := ResolveOutputKey(m, candidate);
    if target.Some? && target.value != "" {
      ReachesFurther(m, app, key, target.value);
      pushed := pushed + [target.value];
    }
  }

  ghost predicate ImportsPushed(m: Metafile, imports: seq<Import>, pushed: seq<string>) {
    forall k, to :: 0 <= k < |imports| && to != "" && LoadsImport(m, imports[k], to) ==> to in pushed
  }

  lemma OneMoreImport(m: Metafile, imports: seq<Import>, imported: Import, before: seq<string>, after: seq<string>)
    requires ImportsPushed(m, imports, before) && before <= after
    requires forall to :: to != "" && LoadsImport(m, imported, to) ==> to in after
    ensures ImportsPushed(m, imports + [imported], after)
  {
    forall k, to | 0 <= k < |imports + [imported]| && to != "" && LoadsImport(m, (imports + [imported])[k], to)
      ensures to in after
    {
      if k < |imports| {
        assert LoadsImport(m, imports[k], to);
        assert to in before;
      }
    }
  }

  method PushImports(m: Metafile, app: string, key: string, pending: seq<string>) returns (pushed: seq<string>)
    requires key in m.outputs && Reachable(m, app, key) && AllReachable(m, app, pending)
    ensures AllReachable(m, app, pushed) && pending <= pushed
    ensures ImportsPushed(m, m.outputs[key].imports, pushed)
  {
    pushed := pending;
    var imports := m.outputs[key].imports;
    for i := 0 to |imports|
      invariant AllReachable(m, app, pushed) && pending <= pushed
      invariant ImportsPushed(m, imports[..i], pushed)
    {
      var imported := imports[i];
      ghost var before := pushed;
      if !imported.isDynamic {
        assert forall to :: ResolveOutputKey(m, imported.path) == Some(to) ==> LoadsImport(m, imports[i], to);
        pushed := PushResolved(m, app, key, imported.path, pushed);
      }
      OneMoreImport(m, imports[..i], imported, before, pushed);
      assert imports[..i + 1] == imports[..i] + [imported];
    }
    assert imports[..|imports|] == imports;
  }

  /** Pushes the outputs one output loads. */
  method PushLoaded(m: Metafile, app: string, key: string, pending: seq<string>) returns (pushed: seq<string>)
    requires key in m.outputs && Reachable(m, app, key) && AllReachable(m, app, pending)
    ensures AllReachable(m, app, pushed) && pending <= pushed
    ensures forall next :: Loads(m, key, next) ==> next in pushed
  {
    pushed := pending;
    var bundle := m.outputs[key].cssBundle;
    if bundle.Some? && bundle.value != "" {
      pushed := PushResolved(m, app, key, bundle.value, pushed);
    }
    pushed := PushImports(m, app, key, pushed);
  }

  /** The worklist returns exactly the outputs reachable from the app output. */
  method InitialOutputKeys(m: Metafile, app: string) returns (keys: set<string>)
    requires IsListed(m) && app in m.outputs && app != ""
    ensures forall key :: key in keys <==> Reachable(m, app, key)
  {
    keys := {};
    var pending := [app];
    ReachesItself(m, app);
    while pending != []
      invariant keys <= m.outputs.Keys
      invariant AllReachable(m, app, pending) && forall key :: key in keys ==> Reachable(m, app, key)
      invariant Closed(m, keys, pending) && (app in keys || app in pending)
      decreases |m.outputs.Keys - keys|, |pending|
    {
      var key := pending[|pending| - 1];
      ghost var before := pending;
      pending := pending[..|pending| - 1];
      assert before == pending + [key];
      if key == "" || key in keys || key !in m.outputs {
        NeverEmptyOrUnknown(m, app, key, keys);
        continue;
      }
      assert m.outputs.Keys - (keys + {key}) < m.outputs.Keys - keys;
      pending := PushLoaded(m, app, key, pending);
      keys := keys + {key};
    }
    forall key | Reachable(m, app, key) ensures key in keys {
      var chain :| ChainTo(m, app, key, chain);
      ClosedHoldsTheReachable(m, keys, app, chain);
    }
  }

  /** Only visited keys are skipped: a reachable key is never empty and always an output. */
  lemma NeverEmptyOrUnknown(m: Metafile, app: string, key: string, keys: set<string>)
    requires IsListed(m) && app in m.outputs && app != "" && Reachable(m, app, key)
    requires key == "" || key in keys || key !in m.outputs
    ensures key in keys
  {
    var chain :| ChainTo(m, app, key, chain);
    if |chain| > 1 {
      assert Loads(m, chain[|chain| - 2], chain[|chain| - 2 + 1]);
    }
  }
}
