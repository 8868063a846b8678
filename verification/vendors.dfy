/**
 * A vendor's profile and product catalogue. The catalogue is a link-based bag
 * of product handles (the source stores `Product*`, so the bag compares
 * handles by identity, never by product name); the products the handles
 * designate live in a heap that maps each handle to its product record.
 * Catalogue positions are 1-based ranks in the bag's head-to-tail order.
 */
module Vendors {
  import opened Wrappers
  import opened Bag
  import opened Products

  /** A handle (pointer) to a product object; equal exactly when it designates
      the same object. */
  datatype ProductRef = ProductRef(address: nat)

  /** The product objects, by handle. */
  type Heap = map<ProductRef, Product>

  datatype Vendor = Vendor(username: string, email: string, password: string, bio: string,
                           profilePicture: string, products: LinkedBag<ProductRef>)

  /** What a vendor operation returns and the vendor it leaves. */
  datatype VendorChange = VendorChange(ok: bool, vendor: Vendor)

  /** What a product operation through the vendor returns and the heap it leaves. */
  datatype HeapChange = HeapChange(ok: bool, heap: Heap)

  /** The vendor's bag keeps its class invariant. */
  ghost predicate WellFormed(v: Vendor)
  {
    Valid(v.products)
  }

  /** Every handle in the catalogue designates a live product. */
  ghost predicate Owns(v: Vendor, heap: Heap)
  {
    forall p :: p in Contents(v.products) ==> p in heap
  }

  /** No handle occurs twice in a sequence. */
  ghost predicate Distinct<T>(s: seq<T>)
  {
    forall x :: x in s ==> multiset(s)[x] == 1
  }

  /** The two vendors agree on everything but the catalogue. */
  predicate SameProfile(a: Vendor, b: Vendor)
  {
    && a.username == b.username && a.email == b.email && a.password == b.password
    && a.bio == b.bio && a.profilePicture == b.profilePicture
  }

  // ---------------------------------------------------------------------
  // Profile
  // ---------------------------------------------------------------------

  /** The parameterised constructor: the given profile and an empty catalogue
      (the default constructor is the one with five empty strings). */
  function MakeVendor(username: string, email: string, password: string, bio: string,
                      profilePicture: string): (v: Vendor)
    ensures WellFormed(v)
    ensures GetProductCount(v) == 0
    ensures v.username == username && v.email == email && v.password == password
    ensures v.bio == bio && v.profilePicture == profilePicture
  {
    Vendor(username, email, password, bio, profilePicture, Empty())
  }

  /** modifyPassword: replaces the password and always reports success. */
  function ModifyPassword(v: Vendor, newPassword: string): (r: VendorChange)
    ensures r.ok
    ensures r.vendor.password == newPassword
    ensures r.vendor.username == v.username && r.vendor.email == v.email
    ensures r.vendor.bio == v.bio && r.vendor.profilePicture == v.profilePicture
    ensures r.vendor.products == v.products
  {
    VendorChange(true, v.(password := newPassword))
  }

  /** operator==: vendors are the same when username and email both match. */
  predicate Equals(a: Vendor, b: Vendor)
  {
    a.username == b.username && a.email == b.email
  }

  /** Vendor equality is an equivalence that ignores the password, the bio,
      the picture and the catalogue, so changing the password keeps it. */
  lemma EqualsIsIdentity(a: Vendor, b: Vendor, c: Vendor, newPassword: string)
    ensures Equals(a, b) <==> a.username == b.username && a.email == b.email
    ensures Equals(a, a)
    ensures Equals(a, b) ==> Equals(b, a)
    ensures Equals(a, b) && Equals(b, c) ==> Equals(a, c)
    ensures Equals(a, ModifyPassword(a, newPassword).vendor)
    ensures Equals(a, a.(bio := b.bio, profilePicture := b.profilePicture, products := b.products))
  {
  }

  // ---------------------------------------------------------------------
  // Catalogue
  // ---------------------------------------------------------------------

  /** getProductCount: the size of the vendor's bag. */
  function GetProductCount(v: Vendor): (n: int)
    requires WellFormed(v)
    ensures n == |Contents(v.products)|
  {
    GetCurrentSize(v.products)
  }

  /** createProduct: a null handle is refused and changes nothing; any other
      handle is added at the head of the catalogue. */
  function CreateProduct(v: Vendor, product: Option<ProductRef>): (r: VendorChange)
    requires WellFormed(v)
    ensures WellFormed(r.vendor)
    ensures SameProfile(v, r.vendor)
    ensures r.ok <==> product.Some?
    ensures product.None? ==> r.vendor == v
    ensures product.Some? ==> Contents(r.vendor.products) == [product.value] + Contents(v.products)
    ensures product.Some? ==> GetProductCount(r.vendor) == GetProductCount(v) + 1
  {
    match product
    case None => VendorChange(false, v)
    case Some(p) =>
      var added := Add(v.products, p);
      VendorChange(added.ok, v.(products := added.bag))
  }

  /** getKthProduct: the handle at rank `k`, or null when `k` is not in
      [1, getProductCount()]. */
  function GetKthProduct(v: Vendor, k: int): (r: Option<ProductRef>)
    requires WellFormed(v)
    ensures r.None? <==> k <= 0 || k > GetProductCount(v)
    ensures r.Some? ==> r.value == Contents(v.products)[k - 1]
  {
    if k <= 0 || k > GetCurrentSize(v.products) then None
    else
      match FindKthItem(v.products, k)
      case None => None
      case Some(p) => Some(p)
  }

  /** modifyProduct: for a rank in range, the product at that rank is edited
      from the input lines and the edit's flag is returned; otherwise it
      fails and no product is touched. */
  function ModifyProduct(v: Vendor, heap: Heap, k: int, lines: seq<string>,
                         stoi: string -> Option<int>): (r: HeapChange)
    requires WellFormed(v) && Owns(v, heap)
    ensures r.ok <==> 1 <= k <= GetProductCount(v)
    ensures !r.ok ==> r.heap == heap
    ensures r.ok ==>
      var p := Contents(v.products)[k - 1];
      r.heap == heap[p := Modify(heap[p], lines, stoi).product]
  {
    match GetKthProduct(v, k)
    case None => HeapChange(false, heap)
    case Some(p) =>
      var edited := Modify(heap[p], lines, stoi);
      HeapChange(edited.ok, heap[p := edited.product])
  }

  /** sellProduct: for a rank in range, the product at that rank sells
      `quantity` and the sale's flag is returned; otherwise it fails and no
      product is touched. */
  function SellProduct(v: Vendor, heap: Heap, k: int, quantity: int): (r: HeapChange)
    requires WellFormed(v) && Owns(v, heap)
    ensures !(1 <= k <= GetProductCount(v)) ==> !r.ok && r.heap == heap
    ensures 1 <= k <= GetProductCount(v) ==>
      var p := Contents(v.products)[k - 1];
      && r.ok == Sell(heap[p], quantity).ok
      && r.heap == heap[p := Sell(heap[p], quantity).product]
  {
    match GetKthProduct(v, k)
    case None => HeapChange(false, heap)
    case Some(p) =>
      var sold := Sell(heap[p], quantity);
      HeapChange(sold.ok, heap[p := sold.product])
  }

  /** deleteProduct: for a rank out of range it fails and changes nothing;
      otherwise the handle at that rank is removed from the bag by its
      head-swap removal, which always finds it. The swap happens at the
      earliest rank holding that handle, which is rank k itself unless the
      handle is listed twice: the old first handle moves into that rank. */
  function DeleteProduct(v: Vendor, k: int): (r: VendorChange)
    requires WellFormed(v)
    ensures WellFormed(r.vendor)
    ensures SameProfile(v, r.vendor)
    ensures r.ok <==> 1 <= k <= GetProductCount(v)
    ensures !r.ok ==> r.vendor == v
    ensures r.ok ==> GetProductCount(r.vendor) == GetProductCount(v) - 1
    ensures r.ok ==>
      multiset(Contents(r.vendor.products))
        == multiset(Contents(v.products)) - multiset{Contents(v.products)[k - 1]}
    ensures r.ok ==>
      var s := Contents(v.products);
      forall j :: 0 <= j < |s| && s[j] == s[k - 1] && s[k - 1] !in s[..j] ==>
        Contents(r.vendor.products) == s[j := s[0]][1..]
  {
    if k <= 0 || k > GetCurrentSize(v.products) then VendorChange(false, v)
    else
      match FindKthItem(v.products, k)
      case None => VendorChange(false, v)
      case Some(p) =>
        var removed := Remove(v.products, p);
        if removed.ok then VendorChange(true, v.(products := removed.bag))
        else VendorChange(false, v)
  }

  /** In a sequence without repeats, every position holds the first
      occurrence of its item. */
  lemma FirstOccurrenceWhenDistinct<T>(s: seq<T>, i: nat)
    requires i < |s|
    ensures Distinct(s) ==> s[i] !in s[..i]
  {
    assert s == s[..i] + s[i..];
    assert s[i..][0] == s[i];
    assert multiset(s)[s[i]] == multiset(s[..i])[s[i]] + multiset(s[i..])[s[i]];
  }

  // ---------------------------------------------------------------------
  // Properties relating several operations
  // ---------------------------------------------------------------------

  /** Creating a product with a fresh handle keeps handles distinct, and the
      new product is then the one at rank 1. */
  lemma CreateFreshKeepsDistinct(v: Vendor, p: ProductRef)
    requires WellFormed(v)
    requires Distinct(Contents(v.products)) && p !in Contents(v.products)
    ensures Distinct(Contents(CreateProduct(v, Some(p)).vendor.products))
    ensures GetKthProduct(CreateProduct(v, Some(p)).vendor, 1) == Some(p)
  {
    var s := Contents(v.products);
    var t := Contents(CreateProduct(v, Some(p)).vendor.products);
    assert t == [p] + s;
    assert forall x :: multiset(t)[x] == multiset(s)[x] + (if x == p then 1 else 0);
  }

  /** Deleting a product right after creating it restores the catalogue. */
  lemma DeleteUndoesCreate(v: Vendor, p: ProductRef)
    requires WellFormed(v)
    ensures DeleteProduct(CreateProduct(v, Some(p)).vendor, 1) == VendorChange(true, v)
  {
    var w := CreateProduct(v, Some(p)).vendor;
    assert FindKthItem(w.products, 1) == Some(p);
    RemoveUndoesAdd(v.products, p);
  }

  /** A handle listed twice: deleting rank 4 of [a, p, b, p] refills rank 2,
      where p first occurs, and leaves [a, b, p]. */
  lemma DeleteRepeatedHandle(v: Vendor, a: ProductRef, p: ProductRef, b: ProductRef)
    requires WellFormed(v) && Contents(v.products) == [a, p, b, p]
    requires a != p && b != p
    ensures DeleteProduct(v, 4).ok
    ensures Contents(DeleteProduct(v, 4).vendor.products) == [a, b, p]
  {
    var s := Contents(v.products);
    assert s[1] == s[3] && s[3] !in s[..1];
    assert s[1 := s[0]][1..] == [a, b, p];
  }

  /** With distinct handles, deleting rank k moves the old first handle into
      slot k; the deleted handle is gone and every other handle stays. */
  lemma DeleteRemovesHandle(v: Vendor, k: int)
    requires WellFormed(v) && Distinct(Contents(v.products))
    requires 1 <= k <= GetProductCount(v)
    ensures
      var s := Contents(v.products);
      Contents(DeleteProduct(v, k).vendor.products) == s[k - 1 := s[0]][1..]
    ensures Contents(v.products)[k - 1] !in Contents(DeleteProduct(v, k).vendor.products)
    ensures forall q :: q in Contents(v.products) && q != Contents(v.products)[k - 1] ==>
              q in Contents(DeleteProduct(v, k).vendor.products)
  {
    var s := Contents(v.products);
    FirstOccurrenceWhenDistinct(s, k - 1);
    var r := DeleteProduct(v, k);
    assert r.ok;
    var t := Contents(r.vendor.products);
    assert multiset(t) == multiset(s) - multiset{s[k - 1]};
    assert multiset(s)[s[k - 1]] == 1;
    OneCopyRemoved(s, t, s[k - 1]);
  }

  /** Taking one copy of `gone` away from a multiset that holds it once
      leaves it out and keeps every other item. */
  lemma OneCopyRemoved<T>(s: seq<T>, t: seq<T>, gone: T)
    requires multiset(s)[gone] == 1
    requires multiset(t) == multiset(s) - multiset{gone}
    ensures gone !in t
    ensures forall q :: q in s && q != gone ==> q in t
  {
    assert multiset(t)[gone] == 0;
    forall q | q in s && q != gone
      ensures q in t
    {
      assert multiset(t)[q] == multiset(s)[q];
    }
  }

  /** Selling or editing through the catalogue touches only the product at
      the chosen rank. */
  lemma ProductOperationsAreLocal(v: Vendor, heap: Heap, k: int, quantity: int,
                                  lines: seq<string>, stoi: string -> Option<int>, q: ProductRef)
    requires WellFormed(v) && Owns(v, heap)
    requires q in heap
    requires !(1 <= k <= GetProductCount(v)) || q != Contents(v.products)[k - 1]
    ensures q in SellProduct(v, heap, k, quantity).heap && SellProduct(v, heap, k, quantity).heap[q] == heap[q]
    ensures q in ModifyProduct(v, heap, k, lines, stoi).heap
    ensures ModifyProduct(v, heap, k, lines, stoi).heap[q] == heap[q]
  {
  }
}
