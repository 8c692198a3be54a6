/** Types and sequence helpers shared by every module of the model. */
module Common {
  type byte = b: int | 0 <= b < 0x100
  type u16 = n: int | 0 <= n < 0x1_0000

  datatype Option<+T> = None | Some(value: T)

  function Min(a: int, b: int): int { if a <= b then a else b }

  /** Concatenation of a sequence of sequences. */
  function Flatten<T>(parts: seq<seq<T>>): seq<T> {
    if parts == [] then [] else Flatten(parts[..|parts| - 1]) + parts[|parts| - 1]
  }

  lemma FlattenSnoc<T>(parts: seq<seq<T>>, last: seq<T>)
    ensures Flatten(parts + [last]) == Flatten(parts) + last
  {
    assert (parts + [last])[..|parts|] == parts;
  }

  lemma {:induction false} FlattenConcat<T>(left: seq<seq<T>>, right: seq<seq<T>>)
    ensures Flatten(left + right) == Flatten(left) + Flatten(right)
  {
    if right == [] {
      assert left + right == left;
    } else {
      var init, last := right[..|right| - 1], right[|right| - 1];
      calc {
        Flatten(left + right);
        { assert left + right == (left + init) + [last]; FlattenSnoc(left + init, last); }
        Flatten(left + init) + last;
        { FlattenConcat(left, init); }
        (Flatten(left) + Flatten(init)) + last;
        { assert (Flatten(left) + Flatten(init)) + last == Flatten(left) + (Flatten(init) + last); }
        Flatten(left) + Flatten(right);
      }
    }
  }

  /** `marker` occurs somewhere in `text`. */
  ghost predicate Contains<T>(text: seq<T>, marker: seq<T>) {
    exists i: nat :: OccursAt(text, marker, i)
  }

  predicate OccursAt<T(==)>(text: seq<T>, marker: seq<T>, i: nat) {
    i + |marker| <= |text| && text[i..i + |marker|] == marker
  }

  /** Appending one element can only create an occurrence at the very end. */
  lemma ContainsSnoc<T>(text: seq<T>, x: T, marker: seq<T>)
    requires Contains(text + [x], marker)
    ensures Contains(text, marker) ||
            (|marker| <= |text| + 1 && (text + [x])[|text| + 1 - |marker|..] == marker)
  {
    var i: nat :| OccursAt(text + [x], marker, i);
    if i + |marker| <= |text| {
      assert text[i..i + |marker|] == (text + [x])[i..i + |marker|];
      assert OccursAt(text, marker, i);
    }
  }

  lemma ContainsPrefix<T>(text: seq<T>, suffix: seq<T>, marker: seq<T>)
    requires Contains(text, marker)
    ensures Contains(text + suffix, marker)
  {
    var i: nat :| OccursAt(text, marker, i);
    assert (text + suffix)[i..i + |marker|] == text[i..i + |marker|];
    assert OccursAt(text + suffix, marker, i);
  }

  lemma MarkerFreePrefix<T>(prefix: seq<T>, text: seq<T>, marker: seq<T>)
    requires prefix <= text && !Contains(text, marker)
    ensures !Contains(prefix, marker)
  {
    forall i: nat ensures !OccursAt(prefix, marker, i) {
      assert i + |marker| <= |prefix| ==> prefix[i..i + |marker|] == text[i..i + |marker|];
      assert !OccursAt(text, marker, i);
    }
  }

  lemma OccurrenceBytes<T>(text: seq<T>, marker: seq<T>, i: nat)
    requires OccursAt(text, marker, i)
    ensures forall j :: i <= j < i + |marker| ==> text[j] == marker[j - i]
  {
    forall j | i <= j < i + |marker| ensures text[j] == marker[j - i] {
      assert text[j] == text[i..i + |marker|][j - i];
    }
  }
}
