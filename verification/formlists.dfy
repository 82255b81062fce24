/** The tag-list handlers of the form pages: adding a typed value to a list
    (ProfileEdit refuses duplicates, the two CreateJob pages do not),
    removing every copy of a value, and the disability-type checkbox toggle. */
module FormLists {
  import opened Seqs
  import opened Text

  /** `list.filter(i => i !== item)`. */
  function RemoveItem(list: seq<string>, item: string): (r: seq<string>)
    ensures item !in r
    ensures forall x :: x != item ==> multiset(r)[x] == multiset(list)[x]
  {
    var keep := (x: string) => x != item;
    forall x | x != item ensures multiset(Filter(list, keep))[x] == multiset(list)[x] {
      FilterCount(list, keep, x);
    }
    Filter(list, keep)
  }

  /** Removing works element by element, so the survivors keep their order. */
  lemma RemoveItemAppend(a: seq<string>, b: seq<string>, item: string)
    ensures RemoveItem(a + b, item) == RemoveItem(a, item) + RemoveItem(b, item)
  {
    FilterAppend(a, b, (x: string) => x != item);
  }

  /** Removing a value the list does not hold changes nothing. */
  lemma RemoveAbsent(list: seq<string>, item: string)
    requires item !in list
    ensures RemoveItem(list, item) == list
  {
    FilterKeepsAll(list, (x: string) => x != item);
  }

  /** ProfileEdit's `handleAddItem`: the trimmed input is appended when it is
      not blank and not yet listed, and only then is the input box cleared.
      The result is the new list and the new input text. */
  function AddUnique(list: seq<string>, input: string): (r: (seq<string>, string))
    ensures r.0 == list || r.0 == list + [Trim(input)]
    ensures r.0 != list <==> Trim(input) != "" && Trim(input) !in list
    ensures r.0 != list ==> r.1 == ""
    ensures r.0 == list ==> r.1 == input
    ensures NoDuplicates(list) ==> NoDuplicates(r.0)
  {
    var t := Trim(input);
    if t != "" && t !in list then
      assert list + [t] != list by { assert |list + [t]| != |list|; }
      (list + [t], "")
    else (list, input)
  }

  /** Submitting the same text twice adds it once. */
  lemma AddUniqueTwice(list: seq<string>, input: string)
    ensures AddUnique(AddUnique(list, input).0, input).0 == AddUnique(list, input).0
  {
    var t := Trim(input);
    if t != "" && t !in list {
      assert (list + [t])[|list|] == t;
    }
  }

  /** Adding a new value and then removing its trimmed form gives back the
      list as it was. */
  lemma AddThenRemove(list: seq<string>, input: string)
    requires Trim(input) != "" && Trim(input) !in list
    ensures RemoveItem(AddUnique(list, input).0, Trim(input)) == list
  {
    var t := Trim(input);
    RemoveItemAppend(list, [t], t);
    RemoveAbsent(list, t);
    assert RemoveItem([t], t) == [];
  }

  /** The CreateJob pages' `handleAddItem`: a blank input is ignored;
      otherwise the trimmed input is appended even when it is already listed,
      and the input box is cleared. */
  function AddTrimmed(list: seq<string>, input: string): (r: (seq<string>, string))
    ensures Trim(input) == "" ==> r == (list, input)
    ensures Trim(input) != "" ==> r.1 == "" && |r.0| == |list| + 1 && r.0[..|list|] == list
    ensures Trim(input) != "" ==> multiset(r.0)[Trim(input)] == multiset(list)[Trim(input)] + 1
  {
    var t := Trim(input);
    if t == "" then (list, input)
    else
      assert (list + [t])[..|list|] == list;
      (list + [t], "")
  }

  /** The two add handlers agree on a value that is not yet listed, and
      differ only in that ProfileEdit's refuses a repeat. */
  lemma AddHandlersAgreeOnNewValues(list: seq<string>, input: string)
    ensures Trim(input) !in list ==> AddUnique(list, input) == AddTrimmed(list, input)
    ensures Trim(input) != "" && Trim(input) in list ==>
              AddUnique(list, input).0 == list && |AddTrimmed(list, input).0| == |list| + 1
  {
  }

  /** The disability-type checkbox: a listed type is filtered out, an
      unlisted one appended. */
  function Toggle(types: seq<string>, t: string): (r: seq<string>)
    ensures t in r <==> t !in types
    ensures forall u :: u != t ==> (u in r <==> u in types)
    ensures NoDuplicates(types) ==> NoDuplicates(r)
  {
    if t in types then
      var r := RemoveItem(types, t);
      forall u | u != t ensures u in r <==> u in types {
        assert multiset(r)[u] == multiset(types)[u];
      }
      if NoDuplicates(types) then
        RemoveKeepsDistinct(types, t);
        r
      else r
    else types + [t]
  }

  /** Removing from a duplicate-free list keeps it duplicate-free. */
  lemma RemoveKeepsDistinct(list: seq<string>, item: string)
    requires NoDuplicates(list)
    ensures NoDuplicates(RemoveItem(list, item))
  {
    var r := RemoveItem(list, item);
    forall i, j | 0 <= i < j < |r| ensures r[i] != r[j] {
      var x := r[i];
      DistinctCount(list, x);
      PairCount(r, i, j);
    }
  }

  /** Two positions holding the same value count it twice. */
  lemma PairCount(s: seq<string>, i: nat, j: nat)
    requires i < j < |s|
    ensures multiset(s)[s[i]] >= if s[i] == s[j] then 2 else 1
  {
    assert s == s[..i] + [s[i]] + s[i + 1..j] + [s[j]] + s[j + 1..];
  }

  /** A duplicate-free list holds each value at most once. */
  lemma {:induction false} DistinctCount(list: seq<string>, x: string)
    requires NoDuplicates(list)
    ensures multiset(list)[x] <= 1
  {
    if |list| > 0 {
      var rest := list[1..];
      assert list == [list[0]] + rest;
      assert NoDuplicates(rest) by {
        forall i, j | 0 <= i < j < |rest| ensures rest[i] != rest[j] {
          assert rest[i] == list[i + 1] && rest[j] == list[j + 1];
        }
      }
      DistinctCount(rest, x);
      if list[0] == x {
        assert x !in rest by {
          forall i | 0 <= i < |rest| ensures rest[i] != x {
            assert rest[i] == list[i + 1];
          }
        }
      }
    }
  }

  /** Ticking a type twice leaves the list as it was. */
  lemma ToggleTwice(types: seq<string>, t: string)
    requires t !in types
    ensures Toggle(Toggle(types, t), t) == types
  {
    assert t in types + [t];
    RemoveItemAppend(types, [t], t);
    RemoveAbsent(types, t);
    assert RemoveItem([t], t) == [];
  }
}
