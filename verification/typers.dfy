/**
  The list of peers the chat client currently shows as typing. The client
  keeps it in an array but uses it as a set: a name is appended only when it
  is absent, and a stop notice filters every copy of the name out.
 */
module Typers {

  /** No name occurs twice. */
  predicate NoDuplicates<T(==)>(s: seq<T>) {
    forall i, j :: 0 <= i < j < |s| ==> s[i] != s[j]
  }

  /** `a` can be obtained from `b` by deleting elements, so the elements of
      `a` appear in `b` in the same relative order. */
  predicate IsSubsequence<T(==)>(a: seq<T>, b: seq<T>)
    decreases |b|
  {
    if a == [] then true
    else if b == [] then false
    else if a[0] == b[0] then IsSubsequence(a[1..], b[1..])
    else IsSubsequence(a, b[1..])
  }

  /** The `typing` notice: the name is added unless it is already shown.
      A new name goes at the end and every earlier entry keeps its place. */
  function AddTyper(typers: seq<string>, name: string): (r: seq<string>)
    ensures name in r
    ensures name in typers ==> r == typers
    ensures name !in typers ==>
              && |r| == |typers| + 1
              && r[..|typers|] == typers
              && r[|typers|] == name
    ensures multiset(r) == multiset(typers) + (if name in typers then multiset{} else multiset{name})
  {
    if name in typers then typers else typers + [name]
  }

  /** The `stopTyping` notice: every copy of the name is filtered out. The
      others keep their multiplicity and their relative order, and a list
      without the name comes back unchanged. */
  function RemoveTyper(typers: seq<string>, name: string): (r: seq<string>)
    ensures name !in r
    ensures multiset(r) == multiset(typers)[name := 0]
    ensures IsSubsequence(r, typers)
    ensures name !in typers ==> r == typers
  {
    if typers == [] then []
    else
      var rest := RemoveTyper(typers[1..], name);
      assert typers == [typers[0]] + typers[1..];
      if typers[0] == name then rest
      else
        assert ([typers[0]] + rest)[1..] == rest;
        [typers[0]] + rest
  }

  /** Two `typing` notices for the same name in a row show it once. */
  lemma AddTyperIdempotent(typers: seq<string>, name: string)
    ensures AddTyper(AddTyper(typers, name), name) == AddTyper(typers, name)
  {
  }

  /** A duplicate-free list stays duplicate-free under `typing`. */
  lemma AddTyperKeepsNoDuplicates(typers: seq<string>, name: string)
    requires NoDuplicates(typers)
    ensures NoDuplicates(AddTyper(typers, name))
  {
  }

  /** A duplicate-free list stays duplicate-free under `stopTyping`. */
  lemma {:induction false} RemoveTyperKeepsNoDuplicates(typers: seq<string>, name: string)
    requires NoDuplicates(typers)
    ensures NoDuplicates(RemoveTyper(typers, name))
  {
    if typers != [] {
      RemoveTyperKeepsNoDuplicates(typers[1..], name);
      var rest := RemoveTyper(typers[1..], name);
      if typers[0] != name {
        assert typers[0] !in typers[1..];
        assert typers[0] !in multiset(rest);
      }
    }
  }

  /** Filtering a name out of a list that had one more copy of it appended
      gives what filtering the original list gives. */
  lemma {:induction false} RemoveTyperAppended(typers: seq<string>, name: string)
    ensures RemoveTyper(typers + [name], name) == RemoveTyper(typers, name)
  {
    if typers != [] {
      assert (typers + [name])[1..] == typers[1..] + [name];
      RemoveTyperAppended(typers[1..], name);
    }
  }

  /** `stopTyping` undoes `typing`: whatever the list held, adding a name and
      then removing it leaves what removing it alone leaves; in particular a
      list that did not show the name comes back exactly as it was. */
  lemma StopTypingUndoesTyping(typers: seq<string>, name: string)
    ensures RemoveTyper(AddTyper(typers, name), name) == RemoveTyper(typers, name)
    ensures name !in typers ==> RemoveTyper(AddTyper(typers, name), name) == typers
  {
    if name !in typers {
      RemoveTyperAppended(typers, name);
    }
  }
}
