/** The elastic.js query and filter objects the services build, as a tree.
    A leaf (range, terms, exists, ...) is turned into a native predicate by
    the search engine; `Eval` fixes only how the boolean filter combines its
    clauses and leaves each leaf's meaning to a parameter. */
module Ejs {
  import opened Values

  datatype Ejs =
    | MatchAllFilter
    | BoolFilter(must: seq<Ejs>, mustNot: seq<Ejs>, should: seq<Ejs>)
    | QueryStringQuery(query: Option<Value>)
    | QueryFilter(inner: Ejs, cached: bool)
    | RangeFilter(field: Option<Value>, from: Option<Value>, to: Option<Value>)
    | TermsFilter(field: Option<Value>, values: Option<Value>)
    | ExistsFilter(field: Option<Value>)
    | MissingFilter(field: Option<Value>)
    /** The `false` a `toEjsObj` returns for a record it cannot translate. */
    | NoFilter

  /** `bool.must(f)`, `bool.mustNot(f)`, `bool.should(f)`: append one clause. */
  function Must(b: Ejs, f: Ejs): Ejs
    requires b.BoolFilter?
  {
    b.(must := b.must + [f])
  }

  function MustNot(b: Ejs, f: Ejs): Ejs
    requires b.BoolFilter?
  {
    b.(mustNot := b.mustNot + [f])
  }

  function Should(b: Ejs, f: Ejs): Ejs
    requires b.BoolFilter?
  {
    b.(should := b.should + [f])
  }

  /** Whether a document matches a filter, given what each leaf matches: a
      boolean filter needs every `must`, no `mustNot` and, when it has
      `should` clauses, at least one of them. */
  predicate Eval(e: Ejs, leaf: Ejs -> bool)
  {
    match e
    case MatchAllFilter => true
    case BoolFilter(must, mustNot, should) =>
      && (forall i | 0 <= i < |must| :: Eval(must[i], leaf))
      && (forall i | 0 <= i < |mustNot| :: !Eval(mustNot[i], leaf))
      && (should == [] || exists i | 0 <= i < |should| :: Eval(should[i], leaf))
    case _ => leaf(e)
  }

  /** The meaning of a boolean filter, clause by clause. */
  lemma EvalBool(must: seq<Ejs>, mustNot: seq<Ejs>, should: seq<Ejs>, leaf: Ejs -> bool)
    ensures Eval(BoolFilter(must, mustNot, should), leaf) <==>
      (forall f :: f in must ==> Eval(f, leaf))
      && (forall f :: f in mustNot ==> !Eval(f, leaf))
      && (should == [] || exists f :: f in should && Eval(f, leaf))
  {
    assert (forall f :: f in must ==> Eval(f, leaf)) <==> (forall i | 0 <= i < |must| :: Eval(must[i], leaf));
    assert (forall f :: f in mustNot ==> !Eval(f, leaf)) <==> (forall i | 0 <= i < |mustNot| :: !Eval(mustNot[i], leaf));
    assert (exists f :: f in should && Eval(f, leaf)) <==> (exists i | 0 <= i < |should| :: Eval(should[i], leaf)) by {
      if exists f :: f in should && Eval(f, leaf) {
        var f :| f in should && Eval(f, leaf);
        var i :| 0 <= i < |should| && should[i] == f;
      }
    }
  }
}
