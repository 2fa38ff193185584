/** "You Might Also Like" (components/related-products.tsx): up to four other
    catalog products sharing the current product's category or scent type. */
module Related {
  import opened Wrappers
  import opened Seqs
  import opened Products

  /** The most cards the section shows. */
  const MaxRelated: nat := 4

  /** A different product with the same category or the same scent type;
      two absent scent types count as the same. */
  predicate Qualifies(p: Product, current: Product) {
    p.id != current.id && (p.category == current.category || p.scentType == current.scentType)
  }

  /** The qualifying products of `all`, in order. */
  function Candidates(all: seq<Product>, current: Product): seq<Product> {
    Filter(all, (p: Product) => Qualifies(p, current))
  }

  /** `relatedProducts`: the first four qualifying products of `all`, which
      the component takes from `getAllProducts()`. */
  function RelatedProducts(all: seq<Product>, current: Product): (r: seq<Product>)
    ensures |r| <= MaxRelated
    ensures forall p | p in r :: p in all && p.id != current.id
    ensures forall p | p in r :: p.category == current.category || p.scentType == current.scentType
    ensures IsSubseq(r, all)
    ensures r <= Candidates(all, current)
    ensures |r| == if |Candidates(all, current)| < MaxRelated then |Candidates(all, current)| else MaxRelated
  {
    var candidates := Candidates(all, current);
    var r := Take(candidates, MaxRelated);
    PrefixIsSubseq(r, candidates);
    SubseqTransitive(r, candidates, all);
    r
  }

  /** When fewer than four products qualify, every one of them is shown. */
  lemma FewCandidatesAllShown(all: seq<Product>, current: Product, p: Product)
    requires |Candidates(all, current)| <= MaxRelated
    requires p in all && Qualifies(p, current)
    ensures p in RelatedProducts(all, current)
  {
  }

  /** The section renders nothing exactly when no product qualifies. */
  function Section(all: seq<Product>, current: Product): (r: Option<seq<Product>>)
    ensures r.None? <==> forall p | p in all :: !Qualifies(p, current)
    ensures r.Some? ==> |r.value| > 0 && r.value == RelatedProducts(all, current)
  {
    var related := RelatedProducts(all, current);
    if |related| == 0 then None else Some(related)
  }
}
