/** The storefront search: the query is split on spaces into terms, and a
    product is listed when some term occurs in its title, description or
    category. A query with no terms lists every product. */
module Search {
  import opened Common

  datatype Product = Product(id: string, title: string, description: string, category: string)

  /** `searchParams.q || ""`. */
  function Query(q: Option<string>): (r: string)
    ensures q.None? ==> r == ""
    ensures q.Some? ==> r == q.value
  {
    if q.None? then "" else q.value
  }

  /** `filter(t => t.length > 0)`, keeping the order. */
  function DropEmpty(pieces: seq<string>): (r: seq<string>)
    ensures forall k :: 0 <= k < |r| ==> r[k] != ""
    ensures forall t :: t in r <==> t in pieces && t != ""
  {
    if pieces == [] then []
    else
      var init := pieces[..|pieces| - 1];
      var last := pieces[|pieces| - 1];
      assert pieces == init + [last];
      if last == "" then DropEmpty(init) else DropEmpty(init) + [last]
  }

  lemma {:induction false} DropEmptyAppend(a: seq<string>, b: seq<string>)
    ensures DropEmpty(a + b) == DropEmpty(a) + DropEmpty(b)
    decreases |b|
  {
    if b != [] {
      var init := b[..|b| - 1];
      assert (a + b)[..|a + b| - 1] == a + init;
      assert (a + b)[|a + b| - 1] == b[|b| - 1];
      DropEmptyAppend(a, init);
    } else {
      assert a + b == a;
    }
  }

  /** `query.split(" ").filter(t => t.length > 0)`. */
  function Terms(query: string): (r: seq<string>)
    ensures forall k :: 0 <= k < |r| ==> r[k] != "" && ' ' !in r[k]
  {
    var pieces := Split(query, ' ');
    var r := DropEmpty(pieces);
    assert forall k :: 0 <= k < |r| ==> r[k] in pieces;
    r
  }

  /** The terms of two queries joined by a space are the terms of the first
      followed by those of the second, however many spaces there are. */
  lemma TermsAround(a: string, b: string)
    ensures Terms(a + " " + b) == Terms(a) + Terms(b)
  {
    assert a + " " + b == a + [' '] + b;
    SplitAround(a, ' ', b);
    DropEmptyAppend(Split(a, ' '), Split(b, ' '));
  }

  /** A query of spaces only, or the empty query, has no terms. */
  lemma {:induction false} BlankQuery(n: nat)
    ensures Terms(seq(n, _ => ' ')) == []
  {
    assert Split("", ' ') == [""];
    assert Terms("") == [];
    if n == 0 {
      assert seq(n, _ => ' ') == "";
    } else {
      var rest := seq(n - 1, _ => ' ');
      assert seq(n, _ => ' ') == "" + " " + rest;
      BlankQuery(n - 1);
      TermsAround("", rest);
    }
  }

  /** One term against the three fields. */
  predicate TermMatches(p: Product, term: string)
  {
    Contains(p.title, term) || Contains(p.description, term) || Contains(p.category, term)
  }

  /** The `where` clause: an `OR` over the terms, or no filter at all when
      there are none. */
  predicate Matches(p: Product, terms: seq<string>)
  {
    terms == [] || exists k :: 0 <= k < |terms| && TermMatches(p, terms[k])
  }

  /** `prisma.product.findMany`, with products in table order. */
  function Results(products: seq<Product>, q: Option<string>): (r: seq<Product>)
    ensures forall p :: p in r <==> p in products && Matches(p, Terms(Query(q)))
    ensures |r| <= |products|
  {
    if products == [] then []
    else
      var init := Results(products[..|products| - 1], q);
      var last := products[|products| - 1];
      assert products == products[..|products| - 1] + [last];
      if Matches(last, Terms(Query(q))) then init + [last] else init
  }

  /** With no terms every product is listed, in order. */
  lemma {:induction false} NoTermsListsAll(products: seq<Product>, q: Option<string>)
    requires Terms(Query(q)) == []
    ensures Results(products, q) == products
  {
    if products != [] {
      NoTermsListsAll(products[..|products| - 1], q);
      assert products == products[..|products| - 1] + [products[|products| - 1]];
    }
  }

  /** Terms are alternatives: adding words to a query can only widen the
      results, once both parts have terms. */
  lemma MoreTermsWiden(p: Product, a: string, b: string)
    requires Terms(a) != [] && Terms(b) != []
    ensures Matches(p, Terms(a + " " + b)) <==> Matches(p, Terms(a)) || Matches(p, Terms(b))
  {
    TermsAround(a, b);
    var ta, tb := Terms(a), Terms(b);
    var t := ta + tb;
    if Matches(p, t) {
      var k :| 0 <= k < |t| && TermMatches(p, t[k]);
      if k < |ta| {
        assert t[k] == ta[k];
      } else {
        assert t[k] == tb[k - |ta|];
      }
    }
    if Matches(p, ta) {
      var k :| 0 <= k < |ta| && TermMatches(p, ta[k]);
      assert t[k] == ta[k];
    }
    if Matches(p, tb) {
      var k :| 0 <= k < |tb| && TermMatches(p, tb[k]);
      assert t[|ta| + k] == tb[k];
    }
  }

  /** A term found inside a field matches, wherever it occurs. */
  lemma TermInside(p: Product, before: string, term: string, after: string)
    requires p.title == before + term + after
    ensures TermMatches(p, term)
  {
    assert OccursAt(p.title, term, |before|) by {
      assert p.title[|before|..|before| + |term|] == term;
    }
  }
}
