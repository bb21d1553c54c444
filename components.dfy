/** The class-name and badge rules of the library components
    (js/components.js): `Button`, `StoreInfoCard` and `MapMarker`. */
module Components {
  import opened Text

  /** `classList.add(token)`: a token already in the list is not added
      again. */
  function AddToken(tokens: seq<string>, token: string): (r: seq<string>)
    ensures token in r
    ensures forall t :: t in r <==> t in tokens || t == token
  {
    if token in tokens then tokens else tokens + [token]
  }

  predicate DistinctTokens(tokens: seq<string>)
  {
    forall i, j :: 0 <= i < j < |tokens| ==> tokens[i] != tokens[j]
  }

  /** The class list of a rendered `Button`: `btn btn-<variant>`, plus
      `btn-<size>` unless the size is `md`. */
  function ButtonTokens(variant: string, size: string): seq<string>
  {
    var base := ["btn", "btn-" + variant];
    if size != "md" then AddToken(base, "btn-" + size) else base
  }

  /** The `class` attribute of a rendered `Button`. */
  function ButtonClassName(variant: string, size: string): string
  {
    Join(ButtonTokens(variant, size), ' ')
  }

  /** The defaults: `variant: 'primary'`, `size: 'md'`. */
  const DefaultVariant := "primary"
  const DefaultSize := "md"

  lemma PrefixedDiffer(a: string, b: string)
    requires a != b
    ensures "btn-" + a != "btn-" + b
  {
    assert ("btn-" + a)[4..] == a && ("btn-" + b)[4..] == b;
  }

  /** A button carries the size class exactly when the size is not `md`
      or coincides with the variant; it always carries `btn` and its
      variant class, and no class twice. */
  lemma ButtonTokensFacts(variant: string, size: string)
    ensures var tokens := ButtonTokens(variant, size);
      "btn" in tokens && "btn-" + variant in tokens &&
      ("btn-" + size in tokens <==> size != "md" || size == variant) &&
      |tokens| == (if size != "md" && size != variant then 3 else 2) &&
      DistinctTokens(tokens)
  {
    assert "btn" != "btn-" + variant by { assert |"btn-" + variant| > 3; }
    assert "btn" != "btn-" + size by { assert |"btn-" + size| > 3; }
    if size != variant {
      PrefixedDiffer(size, variant);
    }
  }

  /** A button with the default options renders as `btn btn-primary`. */
  lemma DefaultButtonClass()
    ensures ButtonClassName(DefaultVariant, DefaultSize) == "btn btn-primary"
  {
  }

  /** A status badge: its CSS class and its label. */
  datatype Badge = Badge(cls: string, text: string)

  const Operating := Badge("badge-success", "영업중")
  const Closed := Badge("badge-error", "폐업")
  const Checking := Badge("badge-warning", "확인중")

  /** `StoreInfoCard`'s `statusMap[status] || statusMap.active`: a status
      outside the map shows as operating. */
  function StoreBadge(status: string): (b: Badge)
    ensures b in {Operating, Closed, Checking}
    ensures b == Closed <==> status == "closed"
    ensures b == Checking <==> status == "pending"
  {
    match status
    case "closed" => Closed
    case "pending" => Checking
    case _ => Operating
  }

  /** `MapMarker`'s nested conditionals: anything but `active` and
      `closed` shows as being checked. */
  function MarkerBadge(status: string): (b: Badge)
    ensures b in {Operating, Closed, Checking}
    ensures b == Operating <==> status == "active"
    ensures b == Closed <==> status == "closed"
  {
    if status == "active" then Operating
    else if status == "closed" then Closed
    else Checking
  }

  /** The two components agree on the three statuses they document and
      disagree on every other one. */
  lemma BadgesAgree(status: string)
    ensures StoreBadge(status) == MarkerBadge(status) <==> status in {"active", "closed", "pending"}
  {
  }

  /** The class list of a rendered `StoreInfoCard`: `store-card`, plus
      `store-<status>` for any status other than `active`. */
  function StoreCardTokens(status: string): seq<string>
  {
    if status != "active" then AddToken(["store-card"], "store-" + status) else ["store-card"]
  }

  /** A card whose status is none of the documented three is styled as a
      non-operating store while its badge says it is operating. */
  lemma UnknownStatusMixed(status: string)
    requires status !in {"active", "closed", "pending"}
    ensures "store-" + status in StoreCardTokens(status)
    ensures StoreBadge(status) == Operating
  {
  }

  /** The card is marked by its status exactly when the status is not
      `active`. */
  lemma StoreCardMarked(status: string)
    ensures "store-" + status in StoreCardTokens(status) <==> status != "active"
  {
    if status == "active" {
      assert "store-card" != "store-active" by { assert "store-card"[6] != "store-active"[6]; }
    }
  }
}
