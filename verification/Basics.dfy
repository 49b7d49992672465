// Types and small facts about sequences and sets that every other module uses.

module Basics {

  datatype Option<+T> = None | Some(value: T)

  type Byte = x: int | 0 <= x < 256

  type Bytes = seq<Byte>

  // A UUID is an opaque number; uuid.Nil is zero.
  type Uuid = nat

  const NIL_UUID: Uuid := 0

  // Length in bytes of a compressed public key (ethereum.PubKeyLengthBytes).
  const PUB_KEY_LENGTH := 33

  predicate ValidPubKey(key: Bytes) {
    |key| == PUB_KEY_LENGTH
  }

  predicate Distinct<T(==)>(s: seq<T>) {
    forall i, j :: 0 <= i < j < |s| ==> s[i] != s[j]
  }

  function Elements<T>(s: seq<T>): set<T> {
    set x | x in s
  }

  lemma {:induction false} SubsetCardinality<T>(a: set<T>, b: set<T>)
    requires a <= b
    ensures |a| <= |b|
    ensures |a| == |b| ==> a == b
  {
    assert b == a + (b - a);
    if |a| == |b| {
      assert |b - a| == 0;
    }
  }

  // A sequence is as long as its set of elements exactly when nothing repeats.
  lemma {:induction false} DistinctCardinality<T>(s: seq<T>)
    ensures |Elements(s)| <= |s|
    ensures |Elements(s)| == |s| <==> Distinct(s)
  {
    if s != [] {
      var front, last := s[..|s| - 1], s[|s| - 1];
      DistinctCardinality(front);
      assert s == front + [last];
      assert Elements(s) == Elements(front) + {last};
      if last in front {
        assert Elements(s) == Elements(front);
        var k :| 0 <= k < |front| && front[k] == last;
        assert s[k] == s[|s| - 1];
        assert !Distinct(s);
      } else {
        assert |Elements(s)| == |Elements(front)| + 1;
        assert Distinct(front) <==> Distinct(s) by {
          if Distinct(s) {
            forall i, j | 0 <= i < j < |front| ensures front[i] != front[j] {
              assert s[i] == front[i] && s[j] == front[j];
            }
          }
        }
      }
    } else {
      assert Elements(s) == {};
    }
  }
}
