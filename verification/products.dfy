/**
 * The product records a vendor sells. Product itself is abstract; its two
 * concrete variants are Media (digital or physical media, unlimited supply)
 * and Good (physical stock with a quantity). Selling and editing are pure
 * functions returning the operation's flag and the product afterwards.
 *
 * Editing reads console lines in the source; here the lines are a parameter
 * (a line past the end of input reads as empty) and the integer parser
 * (std::stoi, which may throw) is a parameter `stoi` that yields None where
 * the source would catch an exception.
 */
module Products {
  import opened Wrappers

  datatype Product =
    | Media(name: string, description: string, rating: int, soldCount: int,
            mediaType: string, targetAudience: string)
    | Good(name: string, description: string, rating: int, soldCount: int,
           expirationDate: string, quantity: int)

  /** What sell or modify returns, and the product they leave. */
  datatype Change = Change(ok: bool, product: Product)

  // ---------------------------------------------------------------------
  // Constructors
  // ---------------------------------------------------------------------

  /** Media's default constructor: empty strings and zero counts. */
  function DefaultMedia(): (p: Product)
    ensures p.Media?
    ensures p.name == "" && p.description == "" && p.mediaType == "" && p.targetAudience == ""
    ensures p.rating == 0 && p.soldCount == 0
  {
    Media("", "", 0, 0, "", "")
  }

  /** Media's parameterised constructor; rating and sold count default to 0. */
  function MakeMedia(name: string, description: string, mediaType: string, targetAudience: string,
                     rating: int := 0, soldCount: int := 0): (p: Product)
    ensures p.Media?
    ensures p.name == name && p.description == description
    ensures p.mediaType == mediaType && p.targetAudience == targetAudience
    ensures p.rating == rating && p.soldCount == soldCount
  {
    Media(name, description, rating, soldCount, mediaType, targetAudience)
  }

  /** Good's default constructor: empty strings and zero counts. */
  function DefaultGood(): (p: Product)
    ensures p.Good?
    ensures p.name == "" && p.description == "" && p.expirationDate == ""
    ensures p.rating == 0 && p.soldCount == 0 && p.quantity == 0
  {
    Good("", "", 0, 0, "", 0)
  }

  /** Good's parameterised constructor; rating and sold count default to 0. */
  function MakeGood(name: string, description: string, expirationDate: string, quantity: int,
                    rating: int := 0, soldCount: int := 0): (p: Product)
    ensures p.Good?
    ensures p.name == name && p.description == description
    ensures p.expirationDate == expirationDate && p.quantity == quantity
    ensures p.rating == rating && p.soldCount == soldCount
  {
    Good(name, description, rating, soldCount, expirationDate, quantity)
  }

  /** The default constructors agree with the parameterised ones called with
      empty strings, a zero quantity and the defaulted rating and sold count. */
  lemma DefaultsAgree()
    ensures DefaultMedia() == MakeMedia("", "", "", "")
    ensures DefaultGood() == MakeGood("", "", "", 0)
  {
  }

  // ---------------------------------------------------------------------
  // Equality
  // ---------------------------------------------------------------------

  /** operator==: products are the same when their names are. */
  predicate Equals(a: Product, b: Product)
  {
    a.name == b.name
  }

  /** Product equality looks at the name only: the variant, description,
      rating, counts and variant fields never matter. */
  lemma EqualsIgnoresDetails(a: Product, b: Product)
    ensures Equals(a, b) <==> a.name == b.name
    ensures SameListing(a, b) ==> Equals(a, b)
    ensures Equals(MakeMedia(a.name, a.description, "", ""), MakeGood(a.name, b.description, "", 0))
  {
  }

  /** Product equality is an equivalence relation. */
  lemma EqualsIsEquivalence(a: Product, b: Product, c: Product)
    ensures Equals(a, a)
    ensures Equals(a, b) ==> Equals(b, a)
    ensures Equals(a, b) && Equals(b, c) ==> Equals(a, c)
  {
  }

  /** Two products that differ at most in their counts (sold count and, for
      a Good, quantity): same variant, same descriptive fields. */
  predicate SameListing(a: Product, b: Product)
  {
    && a.name == b.name && a.description == b.description && a.rating == b.rating
    && match a
       case Media(_, _, _, _, t, aud) => b.Media? && b.mediaType == t && b.targetAudience == aud
       case Good(_, _, _, _, exp, _) => b.Good? && b.expirationDate == exp
  }

  // ---------------------------------------------------------------------
  // Selling
  // ---------------------------------------------------------------------

  /** Media::sell: always succeeds and adds the quantity to the sold count
      (the random access code it prints is not modelled). */
  function SellMedia(p: Product, quantity: int): (r: Change)
    requires p.Media?
    ensures r.ok
    ensures r.product.Media?
    ensures r.product.soldCount - p.soldCount == quantity
    ensures SameListing(p, r.product)
  {
    Change(true, Media(p.name, p.description, p.rating, p.soldCount + quantity, p.mediaType, p.targetAudience))
  }

  /** Good::sell: succeeds exactly when the stock covers the request, then
      moves the quantity from stock to sold; a refused sale changes nothing.
      There is no guard against a negative request. */
  function SellGood(p: Product, sellQuantity: int): (r: Change)
    requires p.Good?
    ensures r.ok <==> p.quantity >= sellQuantity
    ensures r.product.Good?
    ensures r.ok ==> r.product.quantity == p.quantity - sellQuantity
    ensures r.ok ==> r.product.soldCount == p.soldCount + sellQuantity
    ensures !r.ok ==> r.product == p
    ensures r.product.quantity + r.product.soldCount == p.quantity + p.soldCount
    ensures SameListing(p, r.product)
  {
    if p.quantity >= sellQuantity then
      Change(true, Good(p.name, p.description, p.rating, p.soldCount + sellQuantity,
                        p.expirationDate, p.quantity - sellQuantity))
    else
      Change(false, p)
  }

  /** The virtual sell: a Media sale always succeeds, a Good sale succeeds
      exactly when the stock covers the request; a successful sale adds the
      quantity to the sold count, a refused one changes nothing, and the
      listing is kept either way. */
  function Sell(p: Product, quantity: int): (r: Change)
    ensures r.ok <==> (p.Media? || p.quantity >= quantity)
    ensures r.ok ==> r.product.soldCount == p.soldCount + quantity
    ensures r.ok && p.Good? ==> r.product.Good? && r.product.quantity == p.quantity - quantity
    ensures !r.ok ==> r.product == p
    ensures SameListing(p, r.product)
  {
    match p
    case Media(_, _, _, _, _, _) => SellMedia(p, quantity)
    case Good(_, _, _, _, _, _) => SellGood(p, quantity)
  }

  /** Selling never changes which product it is: the listing and so the
      identity under operator== survive every sale. */
  lemma SellKeepsIdentity(p: Product, quantity: int)
    ensures SameListing(p, Sell(p, quantity).product)
    ensures Equals(p, Sell(p, quantity).product)
  {
  }

  /** Two Media sales add up to one sale of the summed quantity. */
  lemma MediaSalesAdd(p: Product, a: int, b: int)
    requires p.Media?
    ensures SellMedia(SellMedia(p, a).product, b) == SellMedia(p, a + b)
  {
  }

  /** Two successful Good sales amount to one successful sale of the summed
      quantity. */
  lemma GoodSalesAdd(p: Product, a: int, b: int)
    requires p.Good?
    requires SellGood(p, a).ok && SellGood(SellGood(p, a).product, b).ok
    ensures SellGood(p, a + b).ok
    ensures SellGood(SellGood(p, a).product, b) == SellGood(p, a + b)
  {
  }

  /** A successful Good sale never leaves negative stock, whatever the
      request; a negative request is accepted on non-negative stock and
      raises the stock while lowering the sold count. */
  lemma GoodSaleStock(p: Product, sellQuantity: int)
    requires p.Good?
    ensures SellGood(p, sellQuantity).ok ==> SellGood(p, sellQuantity).product.quantity >= 0
    ensures sellQuantity < 0 && p.quantity >= 0 ==>
      && SellGood(p, sellQuantity).ok
      && SellGood(p, sellQuantity).product.quantity > p.quantity
      && SellGood(p, sellQuantity).product.soldCount < p.soldCount
  {
  }

  // ---------------------------------------------------------------------
  // Editing from input lines
  // ---------------------------------------------------------------------

  /** The `i`-th input line; past the end of input a read yields "". */
  function Line(lines: seq<string>, i: nat): string
  {
    if i < |lines| then lines[i] else ""
  }

  /** A free-text field: an empty line keeps the current value. */
  function EditText(current: string, line: string): string
  {
    if line == "" then current else line
  }

  /** The rating rule: replaced only by a line that parses to an integer in
      [0, 5]; an empty, unparsable or out-of-range line keeps the rating. */
  function EditRating(current: int, line: string, stoi: string -> Option<int>): (r: int)
    ensures r == current || (line != "" && stoi(line) == Some(r) && 0 <= r <= 5)
    ensures line != "" && stoi(line).Some? && 0 <= stoi(line).value <= 5 ==> r == stoi(line).value
  {
    if line == "" then current
    else
      match stoi(line)
      case None => current
      case Some(n) => if 0 <= n <= 5 then n else current
  }

  /** The quantity rule: replaced only by a line that parses to an integer
      that is not negative; otherwise the quantity is kept. */
  function EditQuantity(current: int, line: string, stoi: string -> Option<int>): (r: int)
    ensures r == current || (line != "" && stoi(line) == Some(r) && r >= 0)
    ensures line != "" && stoi(line).Some? && stoi(line).value >= 0 ==> r == stoi(line).value
  {
    if line == "" then current
    else
      match stoi(line)
      case None => current
      case Some(n) => if n >= 0 then n else current
  }

  /** Field values the edit rules keep in range: a rating in [0, 5] and, for
      a Good, a stock that is not negative. */
  predicate InRange(p: Product)
  {
    && 0 <= p.rating <= 5
    && (p.Good? ==> p.quantity >= 0)
  }

  /** Product::modify: lines 0, 1 and 2 edit the name, the description and
      the rating; the sold count and the variant's own fields are kept. */
  function ModifyBase(p: Product, lines: seq<string>, stoi: string -> Option<int>): (r: Change)
    ensures r.ok
    ensures Line(lines, 0) == "" ==> r.product.name == p.name
    ensures Line(lines, 0) != "" ==> r.product.name == Line(lines, 0)
    ensures Line(lines, 1) == "" ==> r.product.description == p.description
    ensures Line(lines, 1) != "" ==> r.product.description == Line(lines, 1)
    ensures r.product.rating == EditRating(p.rating, Line(lines, 2), stoi)
    ensures r.product.soldCount == p.soldCount
    ensures p.Media? ==> r.product.Media? && r.product.mediaType == p.mediaType
                         && r.product.targetAudience == p.targetAudience
    ensures p.Good? ==> r.product.Good? && r.product.expirationDate == p.expirationDate
                        && r.product.quantity == p.quantity
  {
    var name := EditText(p.name, Line(lines, 0));
    var description := EditText(p.description, Line(lines, 1));
    var rating := EditRating(p.rating, Line(lines, 2), stoi);
    match p
    case Media(_, _, _, soldCount, t, aud) => Change(true, Media(name, description, rating, soldCount, t, aud))
    case Good(_, _, _, soldCount, exp, q) => Change(true, Good(name, description, rating, soldCount, exp, q))
  }

  /** Media::modify: the base edit, then lines 3 and 4 edit the media type and
      the target audience. */
  function ModifyMedia(p: Product, lines: seq<string>, stoi: string -> Option<int>): (r: Change)
    requires p.Media?
    ensures r.ok && r.product.Media?
    ensures r.product.name == ModifyBase(p, lines, stoi).product.name
    ensures r.product.description == ModifyBase(p, lines, stoi).product.description
    ensures r.product.rating == ModifyBase(p, lines, stoi).product.rating
    ensures r.product.soldCount == p.soldCount
    ensures Line(lines, 3) == "" ==> r.product.mediaType == p.mediaType
    ensures Line(lines, 3) != "" ==> r.product.mediaType == Line(lines, 3)
    ensures Line(lines, 4) == "" ==> r.product.targetAudience == p.targetAudience
    ensures Line(lines, 4) != "" ==> r.product.targetAudience == Line(lines, 4)
  {
    var base := ModifyBase(p, lines, stoi).product;
    Change(true, Media(base.name, base.description, base.rating, base.soldCount,
                       EditText(p.mediaType, Line(lines, 3)),
                       EditText(p.targetAudience, Line(lines, 4))))
  }

  /** Good::modify: the base edit, then line 3 edits the expiration date and
      line 4 the quantity. */
  function ModifyGood(p: Product, lines: seq<string>, stoi: string -> Option<int>): (r: Change)
    requires p.Good?
    ensures r.ok && r.product.Good?
    ensures r.product.name == ModifyBase(p, lines, stoi).product.name
    ensures r.product.description == ModifyBase(p, lines, stoi).product.description
    ensures r.product.rating == ModifyBase(p, lines, stoi).product.rating
    ensures r.product.soldCount == p.soldCount
    ensures Line(lines, 3) == "" ==> r.product.expirationDate == p.expirationDate
    ensures Line(lines, 3) != "" ==> r.product.expirationDate == Line(lines, 3)
    ensures r.product.quantity == EditQuantity(p.quantity, Line(lines, 4), stoi)
  {
    var base := ModifyBase(p, lines, stoi).product;
    Change(true, Good(base.name, base.description, base.rating, base.soldCount,
                      EditText(p.expirationDate, Line(lines, 3)),
                      EditQuantity(p.quantity, Line(lines, 4), stoi)))
  }

  /** The virtual modify: dispatches on the variant; it always reports
      success, keeps the variant and the sold count, and keeps the rating and
      the stock in range. */
  function Modify(p: Product, lines: seq<string>, stoi: string -> Option<int>): (r: Change)
    ensures r.ok
    ensures r.product.Media? <==> p.Media?
    ensures r.product.soldCount == p.soldCount
    ensures InRange(p) ==> InRange(r.product)
  {
    match p
    case Media(_, _, _, _, _, _) => ModifyMedia(p, lines, stoi)
    case Good(_, _, _, _, _, _) => ModifyGood(p, lines, stoi)
  }

  /** With nothing but empty lines (or no input at all), modify keeps the
      product exactly as it was. */
  lemma BlankInputKeepsProduct(p: Product, lines: seq<string>, stoi: string -> Option<int>)
    requires forall i | 0 <= i < |lines| :: lines[i] == ""
    ensures Modify(p, lines, stoi) == Change(true, p)
  {
    assert forall i: nat :: Line(lines, i) == "";
  }

  /** With an empty first line, modify keeps the name and therefore the
      product's identity under operator==. */
  lemma ModifyKeepsIdentity(p: Product, lines: seq<string>, stoi: string -> Option<int>)
    requires Line(lines, 0) == ""
    ensures Equals(p, Modify(p, lines, stoi).product)
  {
  }
}
