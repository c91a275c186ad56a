/** The searches for an unused id (`ensureUniqueSlug`, packages/shared/src/template-vars.ts;
  * `importedWorkflowIdFor`, packages/shared/src/workflow-portability.ts).
  */
module Ids {
  import opened Wrappers
  import opened Counting
  import opened Decimals

  lemma TailsDiffer(s: string, a: string, b: string)
    requires s + a == s + b
    ensures a == b
  {
    assert (s + a)[|s|..] == a && (s + b)[|s|..] == b;
  }

  // ---- slugs ----

  /** The `i`th slug tried. */
  function SlugAt(slug: string, i: nat): string {
    if i < 2 then slug else slug + "_" + Show(i)
  }

  lemma SlugsDiffer(slug: string, i: nat, j: nat)
    requires 1 <= i < j
    ensures SlugAt(slug, i) != SlugAt(slug, j)
  {
    if i >= 2 && Show(i) == Show(j) {
      ShowInjective(i, j);
    }
    if i >= 2 && SlugAt(slug, i) == SlugAt(slug, j) {
      TailsDiffer(slug + "_", Show(i), Show(j));
    }
    assert i < 2 ==> |SlugAt(slug, j)| > |SlugAt(slug, i)|;
  }

  /** As many slugs as are held can be taken, so one more is free. */
  lemma SlugsRunOut(slug: string, existing: set<string>, n: nat)
    requires forall i :: 1 <= i <= n ==> SlugAt(slug, i) in existing
    ensures n <= |existing|
  {
    var tried := seq(n, i requires 0 <= i < n => SlugAt(slug, i + 1));
    forall i, j | 0 <= i < j < n ensures tried[i] != tried[j] {
      SlugsDiffer(slug, i + 1, j + 1);
    }
    NoDupBounded(tried, existing);
  }

  /** The first slug of the row that is free, found within one more try than slugs are held. */
  method EnsureUniqueSlug(slug: string, existing: set<string>) returns (r: string)
    ensures r !in existing
    ensures exists i ::
      && 1 <= i <= |existing| + 1 && r == SlugAt(slug, i)
      && forall j :: 1 <= j < i ==> SlugAt(slug, j) in existing
  {
    if slug !in existing {
      assert slug == SlugAt(slug, 1);
      return slug;
    }
    var i := 2;
    SlugsRunOut(slug, existing, 1);
    while slug + "_" + Show(i) in existing
      invariant i >= 2 && forall j :: 1 <= j < i ==> SlugAt(slug, j) in existing
      invariant i <= |existing| + 1
      decreases |existing| + 1 - i
    {
      SlugsRunOut(slug, existing, i);
      i := i + 1;
    }
    r := slug + "_" + Show(i);
    assert r == SlugAt(slug, i);
  }

  // ---- imported workflows ----

  datatype Workflow = Workflow(id: string, name: string)

  function ImportedWorkflowId(bundle: string, slug: string): string {
    "import:" + bundle + ":" + slug
  }

  /** The id tried at attempt `k`. */
  function IdAt(bundle: string, slug: string, k: nat): string {
    ImportedWorkflowId(bundle, if k < 2 then slug else slug + "-" + Show(k))
  }

  /** The name of the first workflow to hold the id. */
  function Holder(existing: seq<Workflow>, id: string): (r: Option<string>)
    ensures r.Some? ==> exists w :: w in existing && w.id == id
  {
    if existing == [] then None
    else if existing[0].id == id then Some(existing[0].name)
    else Holder(existing[1..], id)
  }

  /** The id is free, or held under this very name. */
  predicate Takes(existing: seq<Workflow>, id: string, name: string) {
    Holder(existing, id).None? || Holder(existing, id).value == name
  }

  /** The `k`th id is the first of the row that can be taken. */
  ghost predicate FirstToTake(bundle: string, slug: string, name: string, existing: seq<Workflow>, k: nat) {
    && k >= 1 && Takes(existing, IdAt(bundle, slug, k), name)
    && forall j :: 1 <= j < k ==> !Takes(existing, IdAt(bundle, slug, j), name)
  }

  lemma IdsDiffer(bundle: string, slug: string, i: nat, j: nat)
    requires 1 <= i < j
    ensures IdAt(bundle, slug, i) != IdAt(bundle, slug, j)
  {
    var head := "import:" + bundle + ":";
    if IdAt(bundle, slug, i) == IdAt(bundle, slug, j) {
      TailsDiffer(head, if i < 2 then slug else slug + "-" + Show(i), slug + "-" + Show(j));
      if i >= 2 {
        TailsDiffer(slug + "-", Show(i), Show(j));
        ShowInjective(i, j);
      }
    }
  }

  lemma IdsRunOut(bundle: string, slug: string, name: string, existing: seq<Workflow>, n: nat)
    requires forall i :: 1 <= i <= n ==> !Takes(existing, IdAt(bundle, slug, i), name)
    ensures n <= |existing|
  {
    var held := set w | w in existing :: w.id;
    var tried := seq(n, i requires 0 <= i < n => IdAt(bundle, slug, i + 1));
    forall i, j | 0 <= i < j < n ensures tried[i] != tried[j] {
      IdsDiffer(bundle, slug, i + 1, j + 1);
    }
    forall x | x in tried ensures x in held {
      var i :| 0 <= i < n && tried[i] == x;
      assert !Takes(existing, IdAt(bundle, slug, i + 1), name);
    }
    NoDupBounded(tried, held);
    HeldIds(existing);
  }

  lemma {:induction false} HeldIds(existing: seq<Workflow>)
    ensures |set w | w in existing :: w.id| <= |existing|
  {
    var held := set w | w in existing :: w.id;
    if existing == [] {
      assert held == {};
    } else {
      HeldIds(existing[1..]);
      var rest := set w | w in existing[1..] :: w.id;
      forall x | x in held ensures x in rest + {existing[0].id} {
        var w :| w in existing && w.id == x;
      }
      SubsetSize(held, rest + {existing[0].id});
    }
  }

  /** The first id of the row that is free or held under the same name, within one attempt more than workflows. */
  method ImportedWorkflowIdFor(bundle: string, slug: string, name: string, existing: seq<Workflow>) returns (id: string)
    ensures exists k ::
      1 <= k <= |existing| + 1 && FirstToTake(bundle, slug, name, existing, k) && id == IdAt(bundle, slug, k)
  {
    var attempt := 1;
    while true
      invariant 1 <= attempt <= |existing| + 1
      invariant forall j :: 1 <= j < attempt ==> !Takes(existing, IdAt(bundle, slug, j), name)
      decreases |existing| + 1 - attempt
    {
      id := ImportedWorkflowId(bundle, if attempt == 1 then slug else slug + "-" + Show(attempt));
      assert id == IdAt(bundle, slug, attempt);
      if Takes(existing, id, name) {
        assert FirstToTake(bundle, slug, name, existing, attempt);
        return;
      }
      IdsRunOut(bundle, slug, name, existing, attempt);
      attempt := attempt + 1;
    }
  }

  /** After an import is stored, what held other ids holds them still and the id is held under its name. */
  ghost predicate Stored(before: seq<Workflow>, after: seq<Workflow>, id: string, name: string) {
    Holder(after, id) == Some(name) && forall x :: x != id ==> Holder(after, x) == Holder(before, x)
  }

  /** Importing the same workflow again finds the id it was given. */
  lemma ImportsAgain(
      bundle: string, slug: string, name: string, before: seq<Workflow>, after: seq<Workflow>, k: nat, m: nat)
    requires FirstToTake(bundle, slug, name, before, k) && Stored(before, after, IdAt(bundle, slug, k), name)
    requires FirstToTake(bundle, slug, name, after, m)
    ensures m == k
  {
    forall j | 1 <= j < k ensures IdAt(bundle, slug, j) != IdAt(bundle, slug, k) {
      IdsDiffer(bundle, slug, j, k);
    }
  }

  /** A workflow of another name never gets it. */
  lemma OtherNamesStepAside(
      bundle: string, slug: string, name: string, other: string, before: seq<Workflow>, after: seq<Workflow>, k: nat,
      m: nat)
    requires Stored(before, after, IdAt(bundle, slug, k), name) && other != name
    requires FirstToTake(bundle, slug, other, after, m)
    ensures IdAt(bundle, slug, m) != IdAt(bundle, slug, k)
  {
  }

  // ---- and back ----

  function ColonFrom(s: string, i: nat): (n: nat)
    requires i <= |s|
    ensures i <= n <= |s| && (n < |s| ==> s[n] == ':') && forall j :: i <= j < n ==> s[j] != ':'
    decreases |s| - i
  {
    if i == |s| || s[i] == ':' then i else ColonFrom(s, i + 1)
  }

  function ParseImportedWorkflowId(id: string): Option<(string, string)> {
    if !("import:" <= id) then None
    else
      var rest := id[7..];
      var colon := ColonFrom(rest, 0);
      if colon == |rest| then None else Some((rest[..colon], rest[colon + 1..]))
  }

  /** An id gives back what it was made of exactly when the bundle holds no colon. */
  lemma ParsesBack(bundle: string, slug: string)
    ensures ParseImportedWorkflowId(ImportedWorkflowId(bundle, slug)) == Some((bundle, slug)) <==> ':' !in bundle
  {
    var id := ImportedWorkflowId(bundle, slug);
    assert id == "import:" + (bundle + ":" + slug);
    var rest := id[7..];
    assert rest == bundle + ":" + slug;
    var colon := ColonFrom(rest, 0);
    assert rest[|bundle|] == ':';
    if ':' in bundle {
      var i :| 0 <= i < |bundle| && bundle[i] == ':';
      assert rest[i] == ':';
      assert |rest[..colon]| < |bundle|;
    } else {
      forall j | 0 <= j < |bundle| ensures rest[j] != ':' {
        assert rest[j] == bundle[j] && bundle[j] in bundle;
      }
      assert rest[..colon] == bundle && rest[colon + 1..] == slug;
    }
  }
}
