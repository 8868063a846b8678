/**
 * The link-based bag: a singly-linked chain of nodes plus a cached item count.
 *
 * The chain is an immutable datatype, `Nil` playing the null pointer, and every
 * mutating operation is a pure function from the old bag to the new one together
 * with the flag the operation returns. `Items` reads a chain head to tail; the
 * class invariant `Valid` says the cached count is the length of the chain.
 */
module Bag {
  import opened Wrappers

  /** A chain of nodes, each holding one item and the link to the rest. */
  datatype Chain<T> = Nil | Node(item: T, next: Chain<T>)

  /** The bag: the head of its chain and the cached number of nodes. */
  datatype LinkedBag<T> = LinkedBag(headPtr: Chain<T>, itemCount: int)

  /** What a mutating operation returns (its flag) and the bag it leaves. */
  datatype Outcome<T> = Outcome(ok: bool, bag: LinkedBag<T>)

  /** The items of a chain, head to tail. */
  function Items<T>(c: Chain<T>): seq<T>
  {
    match c
    case Nil => []
    case Node(x, rest) => [x] + Items(rest)
  }

  /** The items of a bag, head to tail (the abstraction of its chain). */
  function Contents<T>(b: LinkedBag<T>): seq<T>
  {
    Items(b.headPtr)
  }

  /** The class invariant: the cached count equals the number of nodes. */
  ghost predicate Valid<T>(b: LinkedBag<T>)
  {
    b.itemCount == |Contents(b)|
  }

  /** How many nodes a traversal bounded both by the chain's end and by the
      cached count visits; it is the whole chain when the bag is valid. */
  function Visited<T>(b: LinkedBag<T>): nat
  {
    if b.itemCount <= 0 then 0
    else if b.itemCount < |Contents(b)| then b.itemCount
    else |Contents(b)|
  }

  // ---------------------------------------------------------------------
  // Construction and size queries
  // ---------------------------------------------------------------------

  /** The default constructor: no chain and a zero count. */
  function Empty<T>(): (b: LinkedBag<T>)
    ensures Valid(b)
    ensures Contents(b) == []
  {
    LinkedBag(Nil, 0)
  }

  /** isEmpty: the bag holds no item. */
  function IsEmpty<T>(b: LinkedBag<T>): (r: bool)
    requires Valid(b)
    ensures r <==> Contents(b) == []
  {
    b.itemCount == 0
  }

  /** getCurrentSize: the number of items in the chain. */
  function GetCurrentSize<T>(b: LinkedBag<T>): (n: int)
    requires Valid(b)
    ensures n == |Contents(b)|
    ensures n == 0 <==> IsEmpty(b)
  {
    b.itemCount
  }

  /** Copies a chain node by node, head first, keeping the order. */
  function CopyChain<T>(c: Chain<T>): (r: Chain<T>)
    ensures Items(r) == Items(c)
  {
    match c
    case Nil => Nil
    case Node(x, rest) => Node(x, CopyChain(rest))
  }

  /** The copy constructor: the count is taken over from the original and the
      chain is rebuilt node by node in the same order. */
  function Copy<T>(aBag: LinkedBag<T>): (r: LinkedBag<T>)
    ensures r.itemCount == aBag.itemCount
    ensures Contents(r) == Contents(aBag)
    ensures Valid(aBag) ==> Valid(r)
  {
    LinkedBag(CopyChain(aBag.headPtr), aBag.itemCount)
  }

  // ---------------------------------------------------------------------
  // Insertion at the head, snapshot, clearing
  // ---------------------------------------------------------------------

  /** add: a new node holding `newEntry` becomes the head; always succeeds. */
  function Add<T>(b: LinkedBag<T>, newEntry: T): (r: Outcome<T>)
    ensures r.ok
    ensures Contents(r.bag) == [newEntry] + Contents(b)
    ensures r.bag.itemCount == b.itemCount + 1
    ensures Valid(b) ==> Valid(r.bag)
  {
    Outcome(true, LinkedBag(Node(newEntry, b.headPtr), b.itemCount + 1))
  }

  /** A traversal that stops after `Visited(b)` nodes has seen exactly that
      prefix of the contents. */
  lemma PrefixOfContents<T>(b: LinkedBag<T>, visited: seq<T>, rest: Chain<T>)
    requires visited + Items(rest) == Contents(b)
    requires |visited| <= Visited(b)
    requires rest.Nil? || |visited| >= b.itemCount
    ensures visited == Contents(b)[..Visited(b)]
    ensures Valid(b) ==> visited == Contents(b)
  {
    assert Contents(b)[..|visited|] == visited;
  }

  /** toVector: walks the chain while the node is non-null and fewer than
      `itemCount` nodes have been visited, collecting the items. */
  method ToVector<T>(b: LinkedBag<T>) returns (bagContents: seq<T>)
    ensures bagContents == Contents(b)[..Visited(b)]
    ensures Valid(b) ==> bagContents == Contents(b) && |bagContents| == b.itemCount
  {
    bagContents := [];
    var curPtr := b.headPtr;
    var counter := 0;
    while curPtr.Node? && counter < b.itemCount
      invariant 0 <= counter <= Visited(b)
      invariant |bagContents| == counter
      invariant bagContents + Items(curPtr) == Contents(b)
      decreases |Items(curPtr)|
    {
      assert Items(curPtr) == [curPtr.item] + Items(curPtr.next);
      bagContents := bagContents + [curPtr.item];
      curPtr := curPtr.next;
      counter := counter + 1;
    }
    PrefixOfContents(b, bagContents, curPtr);
  }

  /** clear: unlinks every node and resets the count. */
  function Clear<T>(b: LinkedBag<T>): (r: LinkedBag<T>)
    ensures Valid(r)
    ensures IsEmpty(r) && GetCurrentSize(r) == 0
  {
    LinkedBag(Nil, 0)
  }

  // ---------------------------------------------------------------------
  // Searching by equality
  // ---------------------------------------------------------------------

  /** getPointerTo: the 0-based position of the first node whose item equals
      `anEntry`, or None (the null pointer) when no node holds it. */
  function GetPointerTo<T(==)>(c: Chain<T>, anEntry: T): (r: Option<nat>)
    ensures r.None? <==> anEntry !in Items(c)
    ensures r.Some? ==> r.value < |Items(c)| && Items(c)[r.value] == anEntry
    ensures r.Some? ==> anEntry !in Items(c)[..r.value]
  {
    match c
    case Nil => None
    case Node(x, rest) =>
      if anEntry == x then Some(0)
      else
        match GetPointerTo(rest, anEntry)
        case None => None
        case Some(i) => Some(i + 1)
  }

  /** contains: whether some node holds an item equal to `anEntry`. */
  function Contains<T(==)>(b: LinkedBag<T>, anEntry: T): (r: bool)
    ensures r <==> anEntry in Contents(b)
  {
    GetPointerTo(b.headPtr, anEntry).Some?
  }

  /** getFrequencyOf: counts the visited nodes whose item equals `anEntry`,
      with the same double bound as toVector. */
  method GetFrequencyOf<T(==)>(b: LinkedBag<T>, anEntry: T) returns (frequency: int)
    ensures frequency == multiset(Contents(b)[..Visited(b)])[anEntry]
    ensures Valid(b) ==> frequency == multiset(Contents(b))[anEntry]
  {
    frequency := 0;
    var counter := 0;
    var curPtr := b.headPtr;
    ghost var visited: seq<T> := [];
    while curPtr.Node? && counter < b.itemCount
      invariant 0 <= counter <= Visited(b)
      invariant |visited| == counter
      invariant visited + Items(curPtr) == Contents(b)
      invariant frequency == multiset(visited)[anEntry]
      decreases |Items(curPtr)|
    {
      assert Items(curPtr) == [curPtr.item] + Items(curPtr.next);
      assert multiset(visited + [curPtr.item]) == multiset(visited) + multiset{curPtr.item};
      if anEntry == curPtr.item {
        frequency := frequency + 1;
      }
      visited := visited + [curPtr.item];
      counter := counter + 1;
      curPtr := curPtr.next;
    }
    PrefixOfContents(b, visited, curPtr);
  }

  // ---------------------------------------------------------------------
  // Removal by head swap
  // ---------------------------------------------------------------------

  /** Overwrites the item of the node at 0-based position `i`. */
  function SetItem<T>(c: Chain<T>, i: nat, v: T): (r: Chain<T>)
    requires i < |Items(c)|
    ensures Items(r) == Items(c)[i := v]
  {
    if i == 0 then Node(v, c.next)
    else Node(c.item, SetItem(c.next, i - 1, v))
  }

  /** remove: when a node holds `anEntry`, the first such node receives the
      head's item and the head node is unlinked; otherwise nothing changes. */
  function Remove<T(==)>(b: LinkedBag<T>, anEntry: T): (r: Outcome<T>)
    requires Valid(b)
    ensures Valid(r.bag)
    ensures r.ok <==> anEntry in Contents(b)
    ensures !r.ok ==> r.bag == b
    ensures r.ok ==> r.bag.itemCount == b.itemCount - 1
    ensures r.ok ==> multiset(Contents(r.bag)) == multiset(Contents(b)) - multiset{anEntry}
    ensures r.ok ==>
      forall i :: 0 <= i < |Contents(b)| && Contents(b)[i] == anEntry && anEntry !in Contents(b)[..i] ==>
        Contents(r.bag) == Contents(b)[i := Contents(b)[0]][1..]
  {
    var entryNodePtr := GetPointerTo(b.headPtr, anEntry);
    if !IsEmpty(b) && entryNodePtr.Some? then
      var i := entryNodePtr.value;
      var swapped := SetItem(b.headPtr, i, b.headPtr.item);
      SwapRemoveMultiset(Contents(b), i);
      FirstMatchUnique(Contents(b), anEntry, i);
      Outcome(true, LinkedBag(swapped.next, b.itemCount - 1))
    else
      Outcome(false, b)
  }

  /** Removing the item at position `i`, when that is its first occurrence,
      swaps the head item into position `i` and drops the head. */
  lemma RemoveFirstOccurrence<T>(b: LinkedBag<T>, i: nat)
    requires Valid(b) && i < |Contents(b)|
    ensures Remove(b, Contents(b)[i]).ok
    ensures Contents(b)[i] !in Contents(b)[..i] ==>
      Contents(Remove(b, Contents(b)[i]).bag) == Contents(b)[i := Contents(b)[0]][1..]
  {
  }

  /** Overwriting position `i` with the head item and dropping the head removes
      exactly one copy of the item that was at `i`. */
  lemma SwapRemoveMultiset<T>(s: seq<T>, i: nat)
    requires i < |s|
    ensures multiset(s[i := s[0]][1..]) == multiset(s) - multiset{s[i]}
  {
    if i == 0 {
      assert s[i := s[0]] == s;
      assert s == [s[0]] + s[1..];
    } else {
      var a, c := s[..i], s[i + 1..];
      assert s == a + [s[i]] + c;
      assert s[i := s[0]][1..] == a[1..] + [s[0]] + c;
      assert a == [s[0]] + a[1..];
    }
  }

  /** Two positions that both hold the first occurrence of `x` are the same. */
  lemma FirstMatchUnique<T>(s: seq<T>, x: T, i: nat)
    requires i < |s| && s[i] == x && x !in s[..i]
    ensures forall j :: 0 <= j < |s| && s[j] == x && x !in s[..j] ==> j == i
  {
  }

  // ---------------------------------------------------------------------
  // Positional operations (1-based ranks)
  // ---------------------------------------------------------------------

  /** The rank a new item takes under insert-at-rank: the head for an empty
      bag or `k <= 1`, rank `k` inside the chain, the tail past its end. */
  function InsertionRank(count: nat, k: int): (rank: nat)
    ensures 1 <= rank <= count + 1
    ensures count == 0 || k <= 1 ==> rank == 1
    ensures 1 < k <= count ==> rank == k
    ensures k > count ==> rank == count + 1
  {
    if count == 0 || k <= 1 then 1
    else if k <= count then k
    else count + 1
  }

  /** Splices a new node in so that it ends up at 0-based position `i`. */
  function InsertAt<T>(c: Chain<T>, i: nat, x: T): (r: Chain<T>)
    requires i <= |Items(c)|
    ensures Items(r) == Items(c)[..i] + [x] + Items(c)[i..]
  {
    if i == 0 then Node(x, c)
    else
      var rest := InsertAt(c.next, i - 1, x);
      assert Items(c)[..i] == [c.item] + Items(c.next)[..i - 1];
      Node(c.item, rest)
  }

  /** appendK: inserts `newEntry` at rank `k`, clamped to the head when the
      bag is empty or `k <= 1` and to the tail when `k` exceeds the count;
      always succeeds and adds one to the count. */
  function AppendK<T>(b: LinkedBag<T>, newEntry: T, k: int): (r: Outcome<T>)
    requires Valid(b)
    ensures r.ok && Valid(r.bag)
    ensures r.bag.itemCount == b.itemCount + 1
    ensures b.itemCount == 0 || k <= 1 ==> Contents(r.bag) == [newEntry] + Contents(b)
    ensures 1 < k <= b.itemCount ==>
      Contents(r.bag) == Contents(b)[..k - 1] + [newEntry] + Contents(b)[k - 1..]
    ensures k > b.itemCount ==> Contents(r.bag) == Contents(b) + [newEntry]
  {
    var rank := InsertionRank(b.itemCount, k);
    Outcome(true, LinkedBag(InsertAt(b.headPtr, rank - 1, newEntry), b.itemCount + 1))
  }

  /** The item of the node at 0-based position `i`, reached by walking. */
  function ItemAt<T>(c: Chain<T>, i: nat): (x: T)
    requires i < |Items(c)|
    ensures x == Items(c)[i]
  {
    if i == 0 then c.item else ItemAt(c.next, i - 1)
  }

  /** findKthItem: the item at rank `k`, or None for an empty bag or a rank
      outside `[1, itemCount]`. */
  function FindKthItem<T>(b: LinkedBag<T>, k: int): (r: Option<T>)
    requires Valid(b)
    ensures r.None? <==> b.itemCount == 0 || k < 1 || k > b.itemCount
    ensures r.Some? ==> r.value == Contents(b)[k - 1]
  {
    if b.itemCount == 0 || k < 1 || k > b.itemCount then None
    else Some(ItemAt(b.headPtr, k - 1))
  }

  // ---------------------------------------------------------------------
  // Properties relating several operations
  // ---------------------------------------------------------------------

  /** Removing what was just added undoes the addition exactly: the match is
      the head itself, so nothing else moves. */
  lemma RemoveUndoesAdd<T>(b: LinkedBag<T>, x: T)
    requires Valid(b)
    ensures Remove(Add(b, x).bag, x) == Outcome(true, b)
  {
    var added := Add(b, x).bag;
    assert GetPointerTo(added.headPtr, x) == Some(0);
  }

  /** After appendK, findKthItem at the insertion rank yields the new item. */
  lemma AppendKThenFindKth<T>(b: LinkedBag<T>, x: T, k: int)
    requires Valid(b)
    ensures FindKthItem(AppendK(b, x, k).bag, InsertionRank(b.itemCount, k)) == Some(x)
  {
    var rank := InsertionRank(b.itemCount, k);
    var s := Contents(b);
    var t := Contents(AppendK(b, x, k).bag);
    assert t == s[..rank - 1] + [x] + s[rank - 1..];
    assert t[rank - 1] == x;
  }

  /** appendK keeps every old item and adds exactly one copy of the new one. */
  lemma AppendKAddsOne<T>(b: LinkedBag<T>, x: T, k: int)
    requires Valid(b)
    ensures multiset(Contents(AppendK(b, x, k).bag)) == multiset(Contents(b)) + multiset{x}
  {
    var i := InsertionRank(b.itemCount, k) - 1;
    var s := Contents(b);
    var t := Contents(AppendK(b, x, k).bag);
    assert t == s[..i] + [x] + s[i..] by {
      if b.itemCount == 0 || k <= 1 {
        assert s[..0] == [] && s[0..] == s;
      } else if k > b.itemCount {
        assert s[..|s|] == s && s[|s|..] == [];
      }
    }
    assert s == s[..i] + s[i..];
    assert multiset(t) == multiset(s[..i]) + multiset{x} + multiset(s[i..]);
  }

  /** contains, a non-null getPointerTo and a positive frequency agree. */
  lemma ContainsAgreement<T>(b: LinkedBag<T>, x: T)
    ensures Contains(b, x) <==> GetPointerTo(b.headPtr, x).Some?
    ensures Contains(b, x) <==> multiset(Contents(b))[x] > 0
  {
  }

  /** The frequency of every item after add: one more copy of the new item,
      the same number of everything else. */
  lemma AddFrequency<T>(b: LinkedBag<T>, x: T, y: T)
    ensures multiset(Contents(Add(b, x).bag))[y] == multiset(Contents(b))[y] + (if x == y then 1 else 0)
  {
  }

  /** Worked scenario, first step: adding A, B, C to an empty bag lists
      them newest first. */
  lemma ScenarioAdds()
    ensures Contents(Add(Add(Add(Empty(), 'A').bag, 'B').bag, 'C').bag) == ['C', 'B', 'A']
  {
  }

  /** Second step: removing B from [C, B, A] moves C into B's node and drops
      the head, leaving [C, A]. */
  lemma ScenarioRemove(b: LinkedBag<char>)
    requires Valid(b) && Contents(b) == ['C', 'B', 'A']
    ensures Remove(b, 'B').ok
    ensures Contents(Remove(b, 'B').bag) == ['C', 'A']
  {
    var s := Contents(b);
    assert s[1] == 'B' && 'B' !in s[..1];
    assert s[1 := s[0]][1..] == ['C', 'A'];
  }

  /** Last steps: X inserted at rank 1 and Y at rank 5 (past the end) of
      [C, A]; rank 2 is then C, and ranks 0 and 10 are not found. */
  lemma ScenarioRanks(b: LinkedBag<char>)
    requires Valid(b) && Contents(b) == ['C', 'A']
    ensures Contents(AppendK(b, 'X', 1).bag) == ['X', 'C', 'A']
    ensures
      var b4 := AppendK(AppendK(b, 'X', 1).bag, 'Y', 5).bag;
      && Contents(b4) == ['X', 'C', 'A', 'Y']
      && FindKthItem(b4, 2) == Some('C')
      && FindKthItem(b4, 0) == None
      && FindKthItem(b4, 10) == None
  {
  }
}
