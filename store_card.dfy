/** `MobileStoreCard` (js/mobile-components.js:692-906): the status label
    of a store card and its favourite toggle. */
module StoreCard {
  import opened Wrappers
  import Components

  /** `getStatusText(status)`: the label of the three card statuses, and
      `알 수 없음` ("unknown") for any other. */
  function StatusText(status: string): (t: string)
    ensures status == "operating" <==> t == "영업중"
    ensures status == "closed" <==> t == "폐업"
    ensures status == "vacant" <==> t == "빈점포"
    ensures t == "알 수 없음" <==> status !in {"operating", "closed", "vacant"}
  {
    match status
    case "operating" => "영업중"
    case "closed" => "폐업"
    case "vacant" => "빈점포"
    case _ => "알 수 없음"
  }

  /** The mobile card calls an operating store `operating` where the
      desktop card calls it `active`: the two agree on the label of an
      operating or closed store, and a desktop `active` status reads as
      unknown on the mobile card. */
  lemma StatusVocabularies()
    ensures StatusText("operating") == Components.StoreBadge("active").text
    ensures StatusText("closed") == Components.StoreBadge("closed").text
    ensures StatusText("active") == "알 수 없음"
  {
  }

  /** The favourite button's face: a red heart when the store is a
      favourite, a white one otherwise. */
  function Heart(isFavorite: bool): (h: string)
    ensures h == "❤️" <==> isFavorite
    ensures h == "🤍" <==> !isFavorite
  {
    if isFavorite then "❤️" else "🤍"
  }

  class MobileStoreCard {
    const id: Option<string>
    const status: string
    /** Whether an `onFavorite` callback was given. */
    const notifies: bool
    var isFavorite: bool
    /** Set by `render`, which creates the favourite button. */
    var rendered: bool
    /** The favourite button's `innerHTML`. */
    var heart: string
    /** The status label's `textContent`. */
    var statusLabel: string

    /** Once rendered, the button shows the favourite flag and the label
        shows the status. */
    predicate Valid()
      reads this
    {
      rendered ==> heart == Heart(isFavorite) && statusLabel == StatusText(status)
    }

    constructor(id: Option<string>, status: string, isFavorite: bool, notifies: bool)
      ensures this.id == id && this.status == status && this.isFavorite == isFavorite && this.notifies == notifies
      ensures !rendered && Valid()
    {
      this.id := id;
      this.status := status;
      this.isFavorite := isFavorite;
      this.notifies := notifies;
      rendered := false;
      heart := "";
      statusLabel := "";
    }

    /** `render()`: the card shows a red heart exactly for a favourite and
        the status label of `getStatusText`. */
    method Render()
      modifies this
      ensures rendered && Valid() && isFavorite == old(isFavorite)
      ensures heart == Heart(isFavorite) && statusLabel == StatusText(status)
    {
      rendered := true;
      heart := Heart(isFavorite);
      statusLabel := StatusText(status);
    }

    /** `toggleFavorite()`: flips the flag, redraws the button and reports
        the card's id with the new flag to `onFavorite` when one was
        given. Before `render` the button is missing and the call throws. */
    method ToggleFavorite() returns (reported: Option<(Option<string>, bool)>)
      requires rendered && Valid()
      modifies this
      ensures rendered && Valid() && statusLabel == old(statusLabel)
      ensures isFavorite == !old(isFavorite) && heart != old(heart)
      ensures reported == if notifies then Some((id, isFavorite)) else None
    {
      isFavorite := !isFavorite;
      heart := Heart(isFavorite);
      reported := if notifies then Some((id, isFavorite)) else None;
    }
  }

  /** Two toggles in a row restore the flag and the button, and report
      both changes in order. */
  method ToggleTwice(card: MobileStoreCard) returns (first: Option<(Option<string>, bool)>, second: Option<(Option<string>, bool)>)
    requires card.rendered && card.Valid()
    modifies card
    ensures card.isFavorite == old(card.isFavorite) && card.heart == old(card.heart) && card.Valid()
    ensures card.notifies ==> first == Some((card.id, !card.isFavorite)) && second == Some((card.id, card.isFavorite))
  {
    first := card.ToggleFavorite();
    second := card.ToggleFavorite();
  }
}
