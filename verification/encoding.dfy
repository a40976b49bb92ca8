/**
 The one-hot transaction encoding of `load_dataset`: strip item names, group
 the purchase records into baskets keyed by (member, date), take the sorted
 distinct item names as the column universe, and mark each basket's row with
 a 1 in every column whose item the basket holds.
 */
module Encoding {
  import Ordering
  import Text

  /** One row of the purchase table: `Member_number`, `Date`, `itemDescription`. */
  datatype Record = Record(member: int, date: string, item: string)

  /** The group-by key of a basket. */
  datatype Key = Key(member: int, date: string)

  /** One group: its key and the item names of its records, in record order, duplicates kept. */
  datatype Basket = Basket(key: Key, items: seq<string>)

  /** A presence cell: 0 or 1. */
  type Bit = b: int | 0 <= b <= 1

  /** The encoder's output: the baskets, the item universe and the basket-by-item presence matrix. */
  datatype Encoded = Encoded(baskets: seq<Basket>, universe: seq<string>, presence: seq<seq<Bit>>)

  function KeyOf(r: Record): Key
  {
    Key(r.member, r.date)
  }

  function RecordKeys(records: seq<Record>): seq<Key>
  {
    seq(|records|, i requires 0 <= i < |records| => KeyOf(records[i]))
  }

  function BasketKeys(baskets: seq<Basket>): seq<Key>
  {
    seq(|baskets|, i requires 0 <= i < |baskets| => baskets[i].key)
  }

  function Names(records: seq<Record>): seq<string>
  {
    seq(|records|, i requires 0 <= i < |records| => records[i].item)
  }

  /** The order a sorted group-by on (`Member_number`, `Date`) puts its groups in. */
  predicate KeyLt(a: Key, b: Key)
  {
    a.member < b.member || (a.member == b.member && Text.StrLt(a.date, b.date))
  }

  lemma KeyLtIsStrictTotalOrder()
    ensures Ordering.StrictTotalOrder(KeyLt)
  {
    Text.StrLtIsStrictTotalOrder();
    forall a, b, c | KeyLt(a, b) && KeyLt(b, c) ensures KeyLt(a, c) {
      if a.member == b.member == c.member {
        assert Text.StrLt(a.date, b.date) && Text.StrLt(b.date, c.date);
      }
    }
  }

  /** `df['itemDescription'].str.strip()`: every item name stripped, keys untouched. */
  function StripItems(records: seq<Record>): (r: seq<Record>)
  {
    seq(|records|, i requires 0 <= i < |records| => records[i].(item := Text.Strip(records[i].item)))
  }

  /** The item names of the records with key `k`, in record order. */
  function ItemsWithKey(records: seq<Record>, k: Key): (r: seq<string>)
    ensures |r| <= |records|
    ensures forall x :: x in r <==>
              exists j :: 0 <= j < |records| && KeyOf(records[j]) == k && records[j].item == x
  {
    if |records| == 0 then []
    else
      var last := records[|records| - 1];
      var init := records[..|records| - 1];
      var rest := ItemsWithKey(init, k);
      assert forall j :: 0 <= j < |init| ==> init[j] == records[j];
      if KeyOf(last) == k then rest + [last.item] else rest
  }

  function BasketsFor(records: seq<Record>, keys: seq<Key>): (r: seq<Basket>)
    ensures |r| == |keys|
    ensures forall i :: 0 <= i < |keys| ==> r[i] == Basket(keys[i], ItemsWithKey(records, keys[i]))
  {
    if |keys| == 0 then [] else [Basket(keys[0], ItemsWithKey(records, keys[0]))] + BasketsFor(records, keys[1..])
  }

  /**
   `groupby(["Member_number", "Date"])["itemDescription"].apply(list)`:
   one basket per distinct key, in key order, each holding exactly the item
   names of the records with its key.
   */
  function Group(records: seq<Record>): (baskets: seq<Basket>)
    ensures Ordering.StrictlySorted(KeyLt, BasketKeys(baskets))
    ensures forall k :: k in BasketKeys(baskets) <==> k in RecordKeys(records)
    ensures forall i :: 0 <= i < |baskets| ==> |baskets[i].items| > 0
    ensures forall i, x :: 0 <= i < |baskets| ==>
              (x in baskets[i].items <==>
               exists j :: 0 <= j < |records| && KeyOf(records[j]) == baskets[i].key && records[j].item == x)
  {
    KeyLtIsStrictTotalOrder();
    var keys := Ordering.SortedDistinct(KeyLt, RecordKeys(records));
    var baskets := BasketsFor(records, keys);
    assert BasketKeys(baskets) == keys;
    BasketsNonEmpty(records, keys);
    baskets
  }

  lemma BasketsNonEmpty(records: seq<Record>, keys: seq<Key>)
    requires forall k :: k in keys ==> k in RecordKeys(records)
    ensures forall i :: 0 <= i < |keys| ==> |BasketsFor(records, keys)[i].items| > 0
  {
    forall i | 0 <= i < |keys| ensures |BasketsFor(records, keys)[i].items| > 0 {
      assert keys[i] in RecordKeys(records);
      var j :| 0 <= j < |records| && RecordKeys(records)[j] == keys[i];
      assert records[j].item in BasketsFor(records, keys)[i].items;
    }
  }

  /** Every record lands in exactly one basket: the one carrying its key, whose items include the record's item. */
  lemma RecordInOwnBasket(records: seq<Record>, j: nat)
    requires j < |records|
    ensures exists i :: 0 <= i < |Group(records)| && Group(records)[i].key == KeyOf(records[j])
                        && records[j].item in Group(records)[i].items
    ensures forall i, i' :: 0 <= i < i' < |Group(records)| ==> Group(records)[i].key != Group(records)[i'].key
  {
    var baskets := Group(records);
    KeyLtIsStrictTotalOrder();
    Ordering.SortedHasNoDuplicates(KeyLt, BasketKeys(baskets));
    assert KeyOf(records[j]) == RecordKeys(records)[j];
    assert KeyOf(records[j]) in BasketKeys(baskets);
    var i :| 0 <= i < |baskets| && BasketKeys(baskets)[i] == KeyOf(records[j]);
    assert records[j].item in baskets[i].items;
    forall i, i' | 0 <= i < i' < |baskets| ensures baskets[i].key != baskets[i'].key {
      assert BasketKeys(baskets)[i] != BasketKeys(baskets)[i'];
    }
  }

  /** The number of item entries across all baskets. */
  function ItemCount(baskets: seq<Basket>): nat
  {
    if |baskets| == 0 then 0 else |baskets[0].items| + ItemCount(baskets[1..])
  }

  function Occurrences(keys: seq<Key>, k: Key): nat
  {
    if |keys| == 0 then 0 else (if keys[0] == k then 1 else 0) + Occurrences(keys[1..], k)
  }

  lemma {:induction false} ItemCountAppend(records: seq<Record>, last: Record, keys: seq<Key>)
    ensures ItemCount(BasketsFor(records + [last], keys))
            == ItemCount(BasketsFor(records, keys)) + Occurrences(keys, KeyOf(last))
  {
    if |keys| > 0 {
      var all := records + [last];
      assert all[..|all| - 1] == records;
      assert BasketsFor(all, keys)[1..] == BasketsFor(all, keys[1..]);
      assert BasketsFor(records, keys)[1..] == BasketsFor(records, keys[1..]);
      ItemCountAppend(records, last, keys[1..]);
    }
  }

  lemma {:induction false} OccursOnce(keys: seq<Key>, k: Key)
    requires forall i, j :: 0 <= i < j < |keys| ==> keys[i] != keys[j]
    requires k in keys
    ensures Occurrences(keys, k) == 1
  {
    if keys[0] == k {
      OccursNever(keys[1..], k);
    } else {
      OccursOnce(keys[1..], k);
    }
  }

  lemma {:induction false} OccursNever(keys: seq<Key>, k: Key)
    requires k !in keys
    ensures Occurrences(keys, k) == 0
  {
    if |keys| > 0 {
      OccursNever(keys[1..], k);
    }
  }

  lemma {:induction false} ItemCountCovers(records: seq<Record>, keys: seq<Key>)
    requires forall i, j :: 0 <= i < j < |keys| ==> keys[i] != keys[j]
    requires forall j :: 0 <= j < |records| ==> KeyOf(records[j]) in keys
    ensures ItemCount(BasketsFor(records, keys)) == |records|
  {
    if |records| == 0 {
      EmptyBaskets(keys);
    } else {
      var init := records[..|records| - 1];
      var last := records[|records| - 1];
      assert records == init + [last];
      ItemCountCovers(init, keys);
      ItemCountAppend(init, last, keys);
      OccursOnce(keys, KeyOf(last));
    }
  }

  lemma {:induction false} EmptyBaskets(keys: seq<Key>)
    ensures ItemCount(BasketsFor([], keys)) == 0
  {
    if |keys| > 0 {
      assert BasketsFor([], keys)[1..] == BasketsFor([], keys[1..]);
      EmptyBaskets(keys[1..]);
    }
  }

  /** Grouping neither loses nor duplicates a record: the baskets hold as many item entries as there are records. */
  lemma GroupKeepsEveryRecord(records: seq<Record>)
    ensures ItemCount(Group(records)) == |records|
  {
    KeyLtIsStrictTotalOrder();
    var keys := Ordering.SortedDistinct(KeyLt, RecordKeys(records));
    Ordering.SortedHasNoDuplicates(KeyLt, keys);
    forall j | 0 <= j < |records| ensures KeyOf(records[j]) in keys {
      assert KeyOf(records[j]) == RecordKeys(records)[j];
    }
    ItemCountCovers(records, keys);
  }

  /** `1 if item in x else 0` for every item of the universe. */
  function PresenceRow(items: seq<string>, universe: seq<string>): (r: seq<Bit>)
    ensures |r| == |universe|
  {
    seq(|universe|, j requires 0 <= j < |universe| => if universe[j] in items then 1 else 0)
  }

  /** A basket's row depends only on which items it holds, not on their order or repetition. */
  lemma PresenceIgnoresDuplicates(items: seq<string>, other: seq<string>, universe: seq<string>)
    requires forall x :: x in items <==> x in other
    ensures PresenceRow(items, universe) == PresenceRow(other, universe)
  {
  }

  /** The presence matrix has one row per basket and one column per universe item, and cell (i, j) is 1 exactly when basket i holds item j. */
  ghost predicate Valid(e: Encoded)
  {
    && |e.presence| == |e.baskets|
    && (forall i :: 0 <= i < |e.presence| ==> |e.presence[i]| == |e.universe|)
    && (forall i, j :: 0 <= i < |e.presence| && 0 <= j < |e.universe| ==>
          (e.presence[i][j] == 1 <==> e.universe[j] in e.baskets[i].items))
  }

  /** The item names after stripping, in record order. */
  function StrippedNames(records: seq<Record>): seq<string>
  {
    seq(|records|, i requires 0 <= i < |records| => Text.Strip(records[i].item))
  }

  /** The one-hot loop: one row per basket over the universe. */
  function Matrix(baskets: seq<Basket>, universe: seq<string>): (m: seq<seq<Bit>>)
    ensures Valid(Encoded(baskets, universe, m))
  {
    seq(|baskets|, i requires 0 <= i < |baskets| => PresenceRow(baskets[i].items, universe))
  }

  /** `sorted(df["itemDescription"].unique())`: the stripped names, sorted, each once. */
  function Universe(records: seq<Record>): (u: seq<string>)
    ensures Ordering.StrictlySorted(Text.StrLt, u)
    ensures forall x :: x in u <==> x in StrippedNames(records)
  {
    Text.StrLtIsStrictTotalOrder();
    Ordering.SortedDistinct(Text.StrLt, StrippedNames(records))
  }

  /**
   `load_dataset`: strip names, group into baskets, take the sorted distinct
   names as the universe and one-hot encode each basket over it.
   */
  function Encode(records: seq<Record>): (e: Encoded)
    ensures Valid(e)
    ensures Ordering.StrictlySorted(Text.StrLt, e.universe)
    ensures forall x :: x in e.universe <==> x in StrippedNames(records)
    ensures forall x :: x in e.universe <==>
              exists i :: 0 <= i < |e.baskets| && x in e.baskets[i].items
    ensures Ordering.StrictlySorted(KeyLt, BasketKeys(e.baskets))
    ensures forall k :: k in BasketKeys(e.baskets) <==> k in RecordKeys(records)
    ensures |e.baskets| == 0 <==> |records| == 0
  {
    var baskets := Group(StripItems(records));
    var universe := Universe(records);
    BasketsCoverUniverse(records);
    Encoded(baskets, universe, Matrix(baskets, universe))
  }

  lemma BasketsCoverUniverse(records: seq<Record>)
    ensures forall x :: x in StrippedNames(records) <==>
              exists i :: 0 <= i < |Group(StripItems(records))| && x in Group(StripItems(records))[i].items
    ensures forall k :: k in BasketKeys(Group(StripItems(records))) <==> k in RecordKeys(records)
    ensures |Group(StripItems(records))| == 0 <==> |records| == 0
  {
    var clean := StripItems(records);
    assert Names(clean) == StrippedNames(records);
    assert RecordKeys(clean) == RecordKeys(records);
    NamesAreBasketItems(clean);
    assert |records| > 0 ==> RecordKeys(records)[0] in BasketKeys(Group(clean));
  }

  /** Every record's name sits in some basket, so the universe is the union of the baskets' items. */
  lemma NamesAreBasketItems(records: seq<Record>)
    ensures forall x :: x in Names(records) <==>
              exists i :: 0 <= i < |Group(records)| && x in Group(records)[i].items
  {
    forall x | x in Names(records)
      ensures exists i :: 0 <= i < |Group(records)| && x in Group(records)[i].items
    {
      var j :| 0 <= j < |records| && Names(records)[j] == x;
      RecordInOwnBasket(records, j);
    }
    forall x, i | 0 <= i < |Group(records)| && x in Group(records)[i].items
      ensures x in Names(records)
    {
      var j :| 0 <= j < |records| && KeyOf(records[j]) == Group(records)[i].key && records[j].item == x;
      assert Names(records)[j] == x;
    }
  }

  /** Records that differ only in surrounding whitespace of their item names encode identically. */
  lemma EncodeIgnoresPadding(records: seq<Record>, padded: seq<Record>)
    requires |padded| == |records|
    requires forall j :: 0 <= j < |records| ==>
               KeyOf(padded[j]) == KeyOf(records[j]) && Text.Strip(padded[j].item) == Text.Strip(records[j].item)
    ensures Encode(padded) == Encode(records)
  {
    assert StripItems(padded) == StripItems(records) by {
      forall j | 0 <= j < |records| ensures StripItems(padded)[j] == StripItems(records)[j] {
        assert KeyOf(padded[j]) == KeyOf(records[j]);
      }
    }
    assert StrippedNames(padded) == StrippedNames(records);
    assert Universe(padded) == Universe(records);
  }

  /** The item universe depends only on which names occur, not on their order or how often. */
  lemma UniverseIgnoresRecordOrder(records: seq<Record>, shuffled: seq<Record>)
    requires forall x :: x in StrippedNames(records) <==> x in StrippedNames(shuffled)
    ensures Encode(records).universe == Encode(shuffled).universe
  {
    Text.StrLtIsStrictTotalOrder();
    Ordering.SortedDistinctByElements(Text.StrLt, StrippedNames(records), StrippedNames(shuffled));
  }
}
