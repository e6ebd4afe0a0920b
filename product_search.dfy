/** The product list's search (components/products-section.tsx): a product matches a
    query when the query's characters occur in order in the title's or the description's
    search text, or when the query is a substring of the product's detail URL. The search
    texts join the lowercased text with its pinyin and pinyin initials; the pinyin
    renderings are given with each product. Also the product link, which gains
    `?isbeta=true` for a user with beta access to that product. */
module ProductSearch {
  import opened Wrappers
  import opened Text

  /** A product card; the pinyin fields are the joined output of the pinyin conversion. */
  datatype Product = Product(id: int, title: string, description: string, detailUrl: string,
                             titlePinyin: string, titleInitials: string,
                             descPinyin: string, descInitials: string)

  /** The title's search text: lowercased title, pinyin and initials, separated by spaces. */
  function TitleFullText(p: Product): string
  {
    Lower(p.title) + " " + Lower(p.titlePinyin) + " " + Lower(p.titleInitials)
  }

  /** The description's search text, built the same way. */
  function DescFullText(p: Product): string
  {
    Lower(p.description) + " " + Lower(p.descPinyin) + " " + Lower(p.descInitials)
  }

  /** matchInTitle / matchInDesc: walk the text once, advancing through the query on each
      equal character, and succeed as soon as the whole query has been seen. The text is
      walked by characters (`for…of`) but the query is split into UTF-16 code units
      (`split('')`): a query character beyond U+FFFF becomes two surrogate units, neither
      equal to any character of the text, so the walk never passes it. The answer is the
      subsequence test for a query with no such character; an empty query never matches
      (no character equals the missing searchChars[0]). */
  method MatchIn(text: string, query: string) returns (found: bool)
    ensures found == (|query| > 0 && AllBmp(query) && IsSubsequence(query, text))
  {
    var charIndex := 0;
    for k := 0 to |text|
      invariant |query| == 0 ==> charIndex == 0
      invariant |query| > 0 ==> 0 <= charIndex < |query|
      invariant AllBmp(query[..charIndex])
      invariant |query| > 0 ==>
        (AllBmp(query) && IsSubsequence(query, text)) ==
        (AllBmp(query[charIndex..]) && IsSubsequence(query[charIndex..], text[k..]))
    {
      assert text[k..][1..] == text[k + 1..];
      if charIndex < |query| && IsBmp(query[charIndex]) && text[k] == query[charIndex] {
        assert query[charIndex..][1..] == query[charIndex + 1..];
        BmpSplit(query, charIndex);
        charIndex := charIndex + 1;
        if charIndex == |query| {
          assert query[charIndex..] == [];
          return true;
        }
      }
    }
    return false;
  }

  /** A query is free of characters beyond U+FFFF exactly when its part before i and its
      part from i are. */
  lemma BmpSplit(query: string, i: nat)
    requires i < |query|
    ensures AllBmp(query) <==> AllBmp(query[..i]) && AllBmp(query[i..])
    ensures AllBmp(query[..i]) && IsBmp(query[i]) ==> AllBmp(query[..i + 1])
    ensures AllBmp(query[i..]) <==> IsBmp(query[i]) && AllBmp(query[i + 1..])
  {
    assert forall j :: 0 <= j < i ==> query[..i][j] == query[j];
    assert forall j :: i <= j < |query| ==> query[i..][j - i] == query[j];
    assert forall j :: 0 <= j <= i ==> query[..i + 1][j] == query[j];
    assert forall j :: i < j < |query| ==> query[i + 1..][j - i - 1] == query[j];
  }

  /** The filter's predicate for a non-blank lowercased, trimmed query. */
  predicate Matches(p: Product, searchLower: string)
  {
    (|searchLower| > 0 && AllBmp(searchLower) && IsSubsequence(searchLower, TitleFullText(p))) ||
    (|searchLower| > 0 && AllBmp(searchLower) && IsSubsequence(searchLower, DescFullText(p))) ||
    Contains(Lower(p.detailUrl), searchLower)
  }

  method ProductMatches(p: Product, searchLower: string) returns (b: bool)
    ensures b == Matches(p, searchLower)
  {
    var matchInTitle := MatchIn(TitleFullText(p), searchLower);
    var matchInDesc := MatchIn(DescFullText(p), searchLower);
    var matchInUrl := Contains(Lower(p.detailUrl), searchLower);
    b := matchInTitle || matchInDesc || matchInUrl;
  }

  /** The filter's test for one query. */
  function MatchesQuery(searchLower: string): Product -> bool
  {
    (p: Product) => Matches(p, searchLower)
  }

  /** The products a test keeps, in their order (defined on prefixes, the way the filter
      visits them). */
  function SelectedBy(products: seq<Product>, keep: Product -> bool): seq<Product>
  {
    if products == [] then []
    else
      var last := products[|products| - 1];
      SelectedBy(products[..|products| - 1], keep) + (if keep(last) then [last] else [])
  }

  /** The products a non-blank query matches, in their order. */
  function Selected(products: seq<Product>, searchLower: string): seq<Product>
  {
    SelectedBy(products, MatchesQuery(searchLower))
  }

  /** filteredProducts: every product for an empty query or one that is blank once
      lowercased and trimmed; otherwise the matching products in their order. */
  function Filtered(products: seq<Product>, query: string): seq<Product>
  {
    var searchLower := Trim(Lower(query));
    if query == "" || searchLower == "" then products else Selected(products, searchLower)
  }

  method FilterProducts(products: seq<Product>, query: string) returns (result: seq<Product>)
    ensures result == Filtered(products, query)
  {
    var searchLower := Trim(Lower(query));
    if query == "" || searchLower == "" {
      return products;
    }
    result := [];
    for i := 0 to |products|
      invariant result == Selected(products[..i], searchLower)
    {
      var matches := ProductMatches(products[i], searchLower);
      assert products[..i + 1][..i] == products[..i];
      if matches {
        result := result + [products[i]];
      }
    }
    assert products[..|products|] == products;
  }

  /** Selecting on prefixes is filtering. */
  lemma {:induction false} SelectedByIsFilter(products: seq<Product>, keep: Product -> bool)
    ensures SelectedBy(products, keep) == Filter(products, keep)
    decreases |products|
  {
    if products != [] {
      var init, last := products[..|products| - 1], products[|products| - 1];
      SelectedByIsFilter(init, keep);
      FilterSnoc(init, last, keep);
      assert init + [last] == products;
    }
  }

  /** Selected is the filter by Matches. */
  lemma SelectedIsFilter(products: seq<Product>, searchLower: string)
    ensures Selected(products, searchLower) == Filter(products, MatchesQuery(searchLower))
  {
    SelectedByIsFilter(products, MatchesQuery(searchLower));
  }

  /** A blank query hides nothing. */
  lemma BlankQueryKeepsAll(products: seq<Product>, query: string)
    requires AllSpace(Lower(query))
    ensures Filtered(products, query) == products
  {
    TrimEmptyIff(Lower(query));
  }

  /** The result is a sub-sequence of the products, in their original order, and holds
      every product the query matches. */
  lemma FilteredIsOrderedSelection(products: seq<Product>, query: string)
    ensures IsSubsequence(Filtered(products, query), products)
    ensures forall i :: 0 <= i < |products| && Matches(products[i], Trim(Lower(query))) ==>
      products[i] in Filtered(products, query)
  {
    var searchLower := Trim(Lower(query));
    if query == "" || searchLower == "" {
      SubsequenceReflexive(products);
    } else {
      ghost var keep := MatchesQuery(searchLower);
      SelectedIsFilter(products, searchLower);
      FilterIsSubsequence(products, keep);
      FilterContents(products, keep);
    }
  }

  /** A query occurring contiguously in a product's title text matches it, unless it holds
      a character beyond U+FFFF: then the title and description walks never succeed and
      only the detail URL can match. */
  lemma SubstringMatches(p: Product, searchLower: string)
    requires searchLower != "" && Contains(TitleFullText(p), searchLower)
    ensures AllBmp(searchLower) ==> Matches(p, searchLower)
    ensures !AllBmp(searchLower) ==> (Matches(p, searchLower) <==> Contains(Lower(p.detailUrl), searchLower))
  {
    SubstringIsSubsequence(searchLower, TitleFullText(p));
  }

  /** The title "😀" does not match the query "😀" by its title: the query's two surrogate
      units equal no character of the title. */
  lemma EmojiTitleNotMatched(p: Product)
    requires p.title == "\U{1F600}" && !Contains(Lower(p.detailUrl), "\U{1F600}")
    ensures Contains(TitleFullText(p), "\U{1F600}")
    ensures !Matches(p, "\U{1F600}")
  {
    var t := TitleFullText(p);
    assert Lower(p.title) == "\U{1F600}";
    assert t[..1] == "\U{1F600}";
    ContainsAt(t, "\U{1F600}", 0);
    assert !IsBmp("\U{1F600}"[0]);
  }

  /** productMap: the product keys that beta applications name. */
  function ProductKey(id: int): (r: Option<string>)
    ensures r.Some? <==> 1 <= id <= 5
  {
    match id
    case 1 => Some("paperstation")
    case 2 => Some("screensaver")
    case 3 => Some("toolbox")
    case 4 => Some("ai")
    case 5 => Some("search")
    case _ => None
  }

  /** The user's beta application, when there is one; `product` is None when the
      property is missing. */
  datatype BetaApplication = BetaApplication(product: Option<string>)

  /** hasBetaQualification: an application naming the product's key (JavaScript's ===
      also holds between two undefined values). */
  predicate HasBetaQualification(p: Product, beta: Option<BetaApplication>)
  {
    beta.Some? && beta.value.product == ProductKey(p.id)
  }

  /** The card's "查看详情" link. */
  function DetailHref(p: Product, beta: Option<BetaApplication>): (r: string)
    ensures HasBetaQualification(p, beta) ==> r == p.detailUrl + "?isbeta=true"
    ensures !HasBetaQualification(p, beta) ==> r == p.detailUrl
  {
    if HasBetaQualification(p, beta) then p.detailUrl + "?isbeta=true" else p.detailUrl
  }

  /** For the five known products the link gains ?isbeta=true exactly when the beta
      application names that product; without an application it never does. */
  lemma DetailHrefCases(p: Product, beta: Option<BetaApplication>)
    ensures beta.None? ==> DetailHref(p, beta) == p.detailUrl
    ensures 1 <= p.id <= 5 ==>
      (DetailHref(p, beta) == p.detailUrl + "?isbeta=true" <==> beta.Some? && beta.value.product == ProductKey(p.id))
    ensures StartsWith(DetailHref(p, beta), p.detailUrl)
  {
    var r := DetailHref(p, beta);
    assert r[..|p.detailUrl|] == p.detailUrl;
    if 1 <= p.id <= 5 && r == p.detailUrl + "?isbeta=true" && !HasBetaQualification(p, beta) {
      assert |r| == |p.detailUrl|;
    }
  }
}
