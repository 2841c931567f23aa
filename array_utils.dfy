/** List helpers shared by the name collectors. */
module ArrayUtils {

  /** `addToList(items, list)`: a new list holding `list` followed by `items`;
      neither argument changes (sequences are values). */
  function AddToList(items: seq<string>, list: seq<string>): (r: seq<string>)
    ensures |r| == |list| + |items|
    ensures r[..|list|] == list
    ensures r[|list|..] == items
  {
    list + items
  }

  /** The old list is a prefix of the result, so a name present before is
      present after: the lists built with `AddToList` only grow. */
  lemma AddToListKeepsMembers(items: seq<string>, list: seq<string>, x: string)
    requires x in list
    ensures x in AddToList(items, list)
  {
    var r := AddToList(items, list);
    var i :| 0 <= i < |list| && list[i] == x;
    assert r[..|list|][i] == x;
  }

  lemma AddToListExamples()
    ensures AddToList(["apple", "banana"], []) == ["apple", "banana"]
    ensures AddToList(["orange", "grape"], ["apple", "banana"]) == ["apple", "banana", "orange", "grape"]
    ensures AddToList(["kiwi"], ["apple"]) == ["apple", "kiwi"]
    ensures AddToList([], ["apple", "banana"]) == ["apple", "banana"]
    ensures AddToList([], []) == []
  {
  }
}
