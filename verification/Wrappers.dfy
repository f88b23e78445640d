/** Results of operations that may fail, as the sources' `Option` and `Result`. */
module Wrappers {

  datatype Option<+T> = None | Some(value: T)

  /** An error carries no payload: no modelled decision depends on its text. */
  datatype Result<+T> = Ok(value: T) | Err
}

/** Enumerating the keys of a map, as an ordered map is iterated. */
module Enumerations {

  ghost predicate Distinct<T(!new)>(s: seq<T>) {
    forall i, j :: 0 <= i < j < |s| ==> s[i] != s[j]
  }

  ghost predicate Enumerates<T(!new)>(s: seq<T>, keys: set<T>) {
    Distinct(s) && forall x :: x in s <==> x in keys
  }

  lemma SubsetSize<T>(part: set<T>, whole: set<T>)
    requires part <= whole
    ensures |part| <= |whole|
  {
    assert whole == part + (whole - part);
  }

  /** Some order of the keys: nothing modelled here depends on which. */
  method Enumerate<T(==, !new)>(keys: set<T>) returns (s: seq<T>)
    ensures Enumerates(s, keys)
  {
    s := [];
    var todo := keys;
    while todo != {}
      invariant todo <= keys && Distinct(s)
      invariant forall x :: x in s <==> x in keys && x !in todo
      decreases |todo|
    {
      var x :| x in todo;
      s := s + [x];
      todo := todo - {x};
    }
  }
}

/** Operations of a file system or a network, any of which may fail for reasons of its own. */
module Faults {

  class Machine {
    /** How many operations have failed. */
    ghost var failures: nat

    constructor ()
      ensures failures == 0
    {
      failures := 0;
    }

    /** Whether an operation is carried out. */
    method Attempt() returns (ok: bool)
      modifies this
      ensures failures == old(failures) + if ok then 0 else 1
    {
      ok := *;
      if !ok {
        failures := failures + 1;
      }
    }
  }
}
