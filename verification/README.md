# Link-based bag and vendor catalogue — a Dafny model

This project models the storage core of a small vendor/product catalogue
written in C++: the generic link-based bag `LinkedBag<ItemType>`, the two
product variants `Media` and `Good` with their `sell`, `modify` and `==`,
and the `Vendor` catalogue operations built on a bag of `Product*` handles.

- `wrappers.dfy` — `Option`, standing for a pointer that may be null.
- `bag.dfy` (module `Bag`) — the chain of nodes (`Chain` = `Nil | Node(item, next)`)
  and the bag (`LinkedBag(headPtr, itemCount)`). `Items` reads a chain head to
  tail; the class invariant `Valid` says `itemCount` equals the chain length.
  Every mutating operation is a pure function that returns an `Outcome`: the
  flag the C++ member returns, plus the bag afterwards. `toVector` and
  `getFrequencyOf` are loop methods. Each loop keeps the source's double bound:
  a non-null node and `counter < itemCount`.
  Every operation that builds a bag returns a valid one. So where an operation
  `requires Valid(b)`, that is the class invariant every reachable bag keeps,
  not an extra demand on callers.
- `products.dfy` (module `Products`) — `Product` as a two-variant datatype
  (`Media`, `Good`). The abstract base class never exists on its own. Selling
  and editing return a `Change`: the flag plus the product afterwards.
- `vendors.dfy` (module `Vendors`) — the vendor profile and catalogue. The bag
  holds `ProductRef` handles. Like the source's `Product*`, handles compare by
  identity, never by product name. The product objects live in a `Heap` map
  from handle to product. Selling and editing through the catalogue return the
  updated heap.

## The two positional operations

In `LinkedBag.cpp`, `appendK` (lines 184-228) does not compile as written:

- lines 198 and 206 use `else (cond) {`;
- line 198 chains `itemCount > k > 0`;
- `curPtr` is never declared;
- it is a free function that touches `headPtr` and `itemCount`.

Read past those errors, its control flow also departs from its comments:

- line 192 reads `itemCount = 0 || k <= 1`, which parses as
  `itemCount = (0 || k <= 1)`: it assigns 1 or 0 to the count where a
  comparison with 0 was meant;
- only case 1 stores the new item (`setItem` at line 193); cases 2 and 3 link
  a node holding a default-constructed item, while the model stores the new
  item in every case;
- if `curPtr` started at the head, case 3's loop (lines 207-209) would follow
  `itemCount` links and reach null before `setNext` at line 210.

`findKthItem` (lines 232-241) has an empty body. The model therefore follows
the policy written in their comments, not the literal control flow:

- `Bag.AppendK(b, x, k)` inserts at the head when the bag is empty or `k <= 1`.
  When `1 < k <= count` it inserts at rank `k`, splicing after the node at rank
  `k - 1` as the comment of case 2 says. When `k > count` it appends at the tail.
  It always adds one to the count and returns true.
  - `k == count` falls between the comment's cases 2 and 3. It is treated as
    case 2, so the new item takes rank `count` and the old last item moves to
    `count + 1`.
  - The loop written at line 199 would advance `k - 1` times from the head and
    land on rank `k`, one node past the intended splice point. The model
    splices after rank `k - 1`.
  - `Bag.InsertionRank` holds this rank choice.
- `Bag.FindKthItem(b, k)` is `None` when the bag is empty or `k` is outside
  `[1, count]`, and otherwise the item at rank `k`. The source would return the
  node; the model returns its item, which is all its callers use.

`getPointerTo` likewise returns the 0-based position of the first matching
node instead of the node itself.

`remove` copies the head item into the first matching node and then unlinks
the head. So after a removal the order is not the insertion order:
removing `B` from `[C, B, A]` leaves `[C, A]`. In the catalogue this means
deleting product `k >= 2` moves the old product 1 into slot `k`.
If the same handle were ever added twice, `deleteProduct(k)` would remove its
first occurrence, which may sit at an earlier rank: deleting rank 4 from
`[a, p, b, p]` leaves `[a, b, p]`. `Vendors.DeleteProduct` states the resulting
order in that case too, in terms of the earliest rank holding the handle;
`Vendors.DeleteRemovesHandle` spells it out for catalogues of distinct handles
(`Vendors.Distinct`).

## Model

| member | source | states |
|---|---|---|
| Bag.Empty | LinkedBagDS/LinkedBag.cpp:18-19 | the default bag satisfies the count invariant and holds no item |
| Bag.IsEmpty | LinkedBagDS/LinkedBag.cpp:64-67 | true exactly when the chain holds no item (the count is the chain length) |
| Bag.GetCurrentSize | LinkedBagDS/LinkedBag.cpp:69-72 | the size is the chain length, and is zero exactly when the bag is empty |
| Bag.CopyChain | LinkedBagDS/LinkedBag.cpp:28-55 | the copied chain lists the same items in the same order |
| Bag.Copy | LinkedBagDS/LinkedBag.cpp:21-56 | the copy takes over the count and lists the same items in the same order; a valid bag copies to a valid bag |
| Bag.Add | LinkedBagDS/LinkedBag.cpp:74-85 | add succeeds, the new contents are the new item followed by the old contents, the count grows by one and the invariant is kept |
| Bag.ToVector | LinkedBagDS/LinkedBag.cpp:87-99 | the snapshot lists the first min(count, chain length) items head to tail; for a valid bag it is exactly the contents, of length itemCount |
| Bag.Clear | LinkedBagDS/LinkedBag.cpp:124-139 | after clear the bag is valid, empty and of size 0 |
| Bag.GetPointerTo | LinkedBagDS/LinkedBag.cpp:165-181 | null exactly when no node holds the item; otherwise the position of the first node holding it |
| Bag.Contains | LinkedBagDS/LinkedBag.cpp:158-161 | true exactly when some node holds the item |
| Bag.GetFrequencyOf | LinkedBagDS/LinkedBag.cpp:141-156 | the number of visited nodes equal to the item; for a valid bag the item's multiplicity in the contents |
| Bag.SetItem | LinkedBagDS/LinkedBag.cpp:106-107 | overwriting a node's item changes that position of the contents and nothing else |
| Bag.Remove | LinkedBagDS/LinkedBag.cpp:101-122 | succeeds exactly when the item is present; on success the count drops by one, the multiset loses exactly one copy, and the contents are the old ones with the first match overwritten by the head item and the head dropped; on failure nothing changes |
| Bag.RemoveFirstOccurrence | LinkedBagDS/LinkedBag.cpp:102-111 | removing the item found at a position always succeeds, and when that is its first occurrence the head item moves into that position and the head is dropped |
| Bag.SwapRemoveMultiset | LinkedBagDS/LinkedBag.cpp:106-118 | the head-swap removal at any position removes exactly one copy of the item held there |
| Bag.InsertionRank | LinkedBagDS/LinkedBag.cpp:189-227 | the rank appendK inserts at: 1 for an empty bag or k <= 1, k inside the chain, count + 1 past its end |
| Bag.InsertAt | LinkedBagDS/LinkedBag.cpp:215-218 | splicing at position i puts the new item between the first i items and the rest |
| Bag.AppendK | LinkedBagDS/LinkedBag.cpp:184-228 | always succeeds and grows the count by one; head insertion for an empty bag or k <= 1, insertion at rank k for 1 < k <= count, tail insertion for k > count |
| Bag.ItemAt | LinkedBagDS/LinkedBag.cpp:233-236 | walking i links from the head reaches the item at position i |
| Bag.FindKthItem | LinkedBagDS/LinkedBag.cpp:231-241 | not found exactly for an empty bag or k outside [1, count]; otherwise the item at rank k of the snapshot |
| Bag.RemoveUndoesAdd | LinkedBagDS/LinkedBag.cpp:101-122 | removing the item just added succeeds and gives back the original bag |
| Bag.AppendKThenFindKth | LinkedBagDS/LinkedBag.cpp:189-238 | after appendK, findKthItem at the insertion rank yields the inserted item |
| Bag.AppendKAddsOne | LinkedBagDS/LinkedBag.cpp:192-212 | appendK keeps every old item and adds exactly one copy of the new one |
| Bag.ContainsAgreement | LinkedBagDS/LinkedBag.cpp:158-181 | contains, a non-null getPointerTo and a positive frequency are equivalent |
| Bag.AddFrequency | LinkedBagDS/LinkedBag.cpp:141-156 | after add the new item's frequency is one higher and every other frequency is unchanged |
| Bag.ScenarioAdds | LinkedBagDS/LinkedBag.cpp:74-85 | adding A, B, C to an empty bag lists C, B, A |
| Bag.ScenarioRemove | LinkedBagDS/LinkedBag.cpp:101-122 | removing B from C, B, A succeeds and leaves C, A |
| Bag.ScenarioRanks | LinkedBagDS/LinkedBag.cpp:189-238 | inserting X at rank 1 and Y at rank 5 into C, A gives X, C, A, Y; rank 2 is C; ranks 0 and 10 are not found |
| Products.DefaultMedia | Product.cpp:105 | a default Media has empty strings and zero rating and sold count |
| Products.MakeMedia | Product.cpp:107-110 | a Media stores its arguments; rating and sold count default to 0 |
| Products.DefaultGood | Product.cpp:178 | a default Good has empty strings and zero rating, sold count and quantity |
| Products.MakeGood | Product.cpp:180-183 | a Good stores its arguments; rating and sold count default to 0 |
| Products.DefaultsAgree | Product.h:27-38 | the default constructors equal the parameterised ones called with empty strings and the defaulted counts |
| Products.Equals | Product.cpp:99-101 | `operator==` compares names only; `Products.EqualsIgnoresDetails` proves it ignores variant, description, rating and counts, and `Products.EqualsIsEquivalence` that it is an equivalence |
| Products.EqualsIgnoresDetails | Product.cpp:99-101 | product equality holds exactly when names match, whatever the variant, description, rating and counts |
| Products.EqualsIsEquivalence | Product.cpp:99-101 | product equality is reflexive, symmetric and transitive |
| Products.SellMedia | Product.cpp:161-174 | a Media sale always succeeds, raises the sold count by exactly the quantity and changes nothing else |
| Products.SellGood | Product.cpp:243-257 | a Good sale succeeds exactly when stock covers the request; it then moves the quantity from stock to sold; a refused sale changes nothing; stock plus sold is conserved |
| Products.Sell | Product.h:118-125 | the virtual sell on either variant: it succeeds exactly for a Media or for a Good whose stock covers the request; a success adds the quantity to the sold count (and takes it from a Good's stock), a refusal changes nothing, and the listing is kept |
| Products.SellKeepsIdentity | Product.h:118-132 | a sale keeps the variant and descriptive fields, hence product equality |
| Products.MediaSalesAdd | Product.cpp:166-167 | two Media sales equal one sale of the summed quantity |
| Products.GoodSalesAdd | Product.cpp:244-248 | two successful Good sales equal one successful sale of the summed quantity |
| Products.GoodSaleStock | Product.cpp:243-256 | a successful Good sale never leaves negative stock; a negative request on non-negative stock is accepted, raising stock and lowering the sold count |
| Products.EditText | Product.cpp:66-75 | an empty line keeps a text field and any other line replaces it; the same rule edits type and audience (lines 147-155) and the expiration date (lines 220-222), and the keep-or-replace clauses of `Products.ModifyBase`, `Products.ModifyMedia` and `Products.ModifyGood` state it per field |
| Products.EditRating | Product.cpp:77-92 | the rating is replaced only by a non-empty line parsing to an integer in [0, 5], and is always replaced by such a line |
| Products.EditQuantity | Product.cpp:224-237 | the quantity is replaced only by a non-empty line parsing to a non-negative integer, and is always replaced by such a line |
| Products.ModifyBase | Product.cpp:59-96 | empty name or description lines keep the field, others replace it; the rating follows the rating rule; sold count and variant fields are kept; always succeeds |
| Products.ModifyMedia | Product.cpp:137-158 | the base edit, then empty type or audience lines keep the field and others replace it; always succeeds |
| Products.ModifyGood | Product.cpp:210-240 | the base edit, then an empty expiration line keeps the date, others replace it, and the quantity follows the quantity rule; always succeeds |
| Products.Modify | Product.h:110-116 | modify always succeeds, keeps the variant and sold count, and keeps the rating and stock in range |
| Products.BlankInputKeepsProduct | Product.cpp:66-75 | with only empty lines (or no input) modify leaves the product unchanged |
| Products.ModifyKeepsIdentity | Product.cpp:63-68 | with an empty name line, modify keeps the product equal to itself under operator== |
| Vendors.MakeVendor | Vendor.cpp:8-11 | a new vendor stores the profile it is given and has no products |
| Vendors.ModifyPassword | Vendor.cpp:70-74 | the password becomes the given one, everything else is kept, and the result is true |
| Vendors.Equals | Vendor.cpp:177-179 | `operator==` compares username and email only; `Vendors.EqualsIsIdentity` proves it an equivalence that ignores password, bio, picture and catalogue |
| Vendors.EqualsIsIdentity | Vendor.cpp:177-179 | vendor equality holds exactly when usernames and emails match; it is an equivalence and ignores password, bio, picture and catalogue |
| Vendors.GetProductCount | Vendor.cpp:172-174 | the product count is the number of handles in the catalogue |
| Vendors.CreateProduct | Vendor.cpp:77-82 | a null handle is refused with the vendor unchanged; otherwise the handle is prepended, the count grows by one and the result is true |
| Vendors.GetKthProduct | Vendor.cpp:114-126 | null exactly for k <= 0 or k > count; otherwise the handle at rank k |
| Vendors.ModifyProduct | Vendor.cpp:128-134 | fails with the heap untouched for a rank out of range; otherwise edits exactly the product at rank k and succeeds |
| Vendors.SellProduct | Vendor.cpp:136-142 | fails with the heap untouched for a rank out of range; otherwise sells the product at rank k and returns that sale's flag |
| Vendors.DeleteProduct | Vendor.cpp:144-170 | fails with the vendor unchanged for a rank out of range; otherwise succeeds, shrinks the count by one and removes one copy of the handle at rank k; the old first handle moves into the earliest rank holding that handle and the head is dropped, so with a repeated handle the earlier copy's slot is the one refilled |
| Vendors.CreateFreshKeepsDistinct | Vendor.cpp:77-82 | adding a fresh handle keeps handles distinct and puts it at rank 1 |
| Vendors.DeleteUndoesCreate | Vendor.cpp:144-170 | deleting rank 1 right after creating a product restores the vendor |
| Vendors.DeleteRepeatedHandle | Vendor.cpp:144-170 | with a handle listed twice, deleting rank 4 of `[a, p, b, p]` refills rank 2, where that handle first occurs, and leaves `[a, b, p]` |
| Vendors.DeleteRemovesHandle | Vendor.cpp:150-165 | with distinct handles, deleting rank k gives p2..p(k-1), p1, p(k+1)..pn: the deleted handle leaves the catalogue and every other handle stays |
| Vendors.ProductOperationsAreLocal | Vendor.cpp:128-142 | selling or editing through the catalogue leaves every product other than the one at rank k unchanged |

## Left out

- Console I/O: the menu program, vendor creation prompts, and every `display`, `displayProfile`, `displayProduct` and `displayAllProducts` output. They only format text to the console.
- `Media::sell`'s access code. It comes from `srand(time(nullptr))` and `rand()`, so it depends on the clock and is never stored.
- `std::stoi` inside `modify` is the parameter `stoi`. `None` stands for the exception the source catches. The input lines are a parameter; a read past the end of input yields an empty line.
- Memory management: node deallocation in `clear` and in the destructor, `delete` of a product in `deleteProduct` and `~Vendor`, and the shallow sharing of `Product*` when a `Vendor` is copied. `Vendors.DeleteProduct` removes the handle from the catalogue but leaves the product in the heap.
- Copy independence: bags are immutable values, so a copy and its original can never affect each other. That property holds by construction, and no lemma states it.
- Getters and setters of `Product`, `Media`, `Good` and `Vendor` are plain field reads and writes. They are used through datatype fields and updates.
- `Vendors.MakeVendor` also stands for the default `Vendor` constructor (all five strings empty).
- Amazon340.cpp is not part of this model. It holds only the console driver around one vendor.
- Bag.Add: does not model 32-bit `int` overflow of `itemCount`. Signed overflow is undefined behaviour in C++.
- Bag.AppendK: does not model 32-bit `int` overflow of `itemCount` at LinkedBag.cpp lines 196, 204 and 211, for the same reason as `Bag.Add`.
- Products.SellMedia: does not model 32-bit `int` overflow of `soldCount` (undefined behaviour in C++).
- Products.SellGood: does not model 32-bit `int` overflow of `quantity` or `soldCount` (undefined behaviour in C++).
