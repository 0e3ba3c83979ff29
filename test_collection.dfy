/** The tests discovered in a source file, and the immutable, ordered
    collection TestCollection keeps them in. */
module TestCollections {

  datatype Option<T> = None | Some(value: T)

  /** One discovered test: its name, the class declaring it when it is a
      method, and where it is declared. */
  datatype Test = Test(name: string, owningScope: Option<string>, file: string, line: int)

  /** TestCollection: a readonly list of tests, built once and never
      changed; merging builds a new collection. */
  datatype TestCollection = TestCollection(tests: seq<Test>)
  {
    /** TestCollection::fromArray(). */
    static function FromArray(tests: seq<Test>): (c: TestCollection)
      ensures c.AsArray() == tests
    {
      TestCollection(tests)
    }

    /** TestCollection::asArray(): the tests in the order they were given. */
    function AsArray(): (tests: seq<Test>)
      ensures TestCollection(tests) == this
    {
      tests
    }

    /** TestCollection::count(). */
    function Count(): (n: nat)
      ensures n == |AsArray()|
    {
      |tests|
    }

    /** TestCollection::isEmpty(). */
    function IsEmpty(): (r: bool)
      ensures r <==> AsArray() == []
    {
      Count() == 0
    }

    /** TestCollection::isNotEmpty(). */
    function IsNotEmpty(): (r: bool)
      ensures r <==> AsArray() != []
    {
      Count() > 0
    }

    /** TestCollection::mergeWith(): a new collection with this collection's
        tests followed by the other's. */
    function MergeWith(other: TestCollection): (merged: TestCollection)
      ensures merged.AsArray() == AsArray() + other.AsArray()
    {
      FromArray(AsArray() + other.AsArray())
    }
  }

  /** A collection is rebuilt exactly from its own list. */
  lemma FromAsArray(c: TestCollection)
    ensures TestCollection.FromArray(c.AsArray()) == c
  {
  }

  /** The count of a merge is the sum of the counts. */
  lemma MergeCount(a: TestCollection, b: TestCollection)
    ensures a.MergeWith(b).Count() == a.Count() + b.Count()
  {
  }

  /** Exactly one of isEmpty() and isNotEmpty() holds. */
  lemma EmptyOrNot(c: TestCollection)
    ensures c.IsEmpty() <==> c.AsArray() == []
    ensures c.IsNotEmpty() <==> !c.IsEmpty()
  {
  }

  /** Merging with an empty collection, on either side, gives the other
      collection. */
  lemma MergeWithEmpty(a: TestCollection, e: TestCollection)
    requires e.IsEmpty()
    ensures a.MergeWith(e) == a && e.MergeWith(a) == a
  {
    assert a.AsArray() + [] == a.AsArray() && [] + a.AsArray() == a.AsArray();
  }

  /** Merging is associative. */
  lemma MergeAssociative(a: TestCollection, b: TestCollection, c: TestCollection)
    ensures a.MergeWith(b).MergeWith(c) == a.MergeWith(b.MergeWith(c))
  {
    assert (a.AsArray() + b.AsArray()) + c.AsArray() == a.AsArray() + (b.AsArray() + c.AsArray());
  }
}
