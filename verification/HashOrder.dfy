/** Go's byte-wise order on strings, used to break ties between blocks. */
module HashOrder {
  import opened Base

  predicate Less(a: Hash, b: Hash) {
    b != "" && (a == "" || a[0] < b[0] || (a[0] == b[0] && Less(a[1..], b[1..])))
  }

  lemma {:induction false} LessIsTotal(a: Hash, b: Hash)
    ensures a == b || Less(a, b) || Less(b, a)
    decreases |a|
  {
    if a != "" && b != "" && a[0] == b[0] {
      LessIsTotal(a[1..], b[1..]);
      assert a == [a[0]] + a[1..] && b == [b[0]] + b[1..];
    }
  }

  /** At i the strings part: they agree before it, and a has ended or has the lower byte. */
  ghost predicate PartsBelow(a: Hash, b: Hash, i: nat) {
    i <= |a| && i < |b| && a[..i] == b[..i] && (i == |a| || a[i] < b[i])
  }

  /** The order is the dictionary's: a proper prefix comes first, and otherwise the first difference decides. */
  lemma {:induction false} LessIs(a: Hash, b: Hash)
    ensures Less(a, b) <==> exists i: nat :: PartsBelow(a, b, i)
    decreases |a|
  {
    if a == "" || b == "" || a[0] != b[0] {
      if b != "" && (a == "" || a[0] < b[0]) { assert PartsBelow(a, b, 0); }
      if i: nat :| PartsBelow(a, b, i) {
        if i > 0 { assert a[..i][0] == b[..i][0]; }
      }
    } else {
      LessIs(a[1..], b[1..]);
      if i: nat :| PartsBelow(a[1..], b[1..], i) {
        assert a[..i + 1] == [a[0]] + a[1..][..i] && b[..i + 1] == [b[0]] + b[1..][..i];
        assert PartsBelow(a, b, i + 1);
      }
      if i: nat :| PartsBelow(a, b, i) {
        assert i > 0 && a[1..][..i - 1] == a[..i][1..] && b[1..][..i - 1] == b[..i][1..];
        assert PartsBelow(a[1..], b[1..], i - 1);
      }
    }
  }

  lemma {:induction false} LessIsStrict(a: Hash, b: Hash)
    requires Less(a, b)
    ensures a != b && !Less(b, a)
    decreases |a|
  {
    if a != "" && a[0] == b[0] { LessIsStrict(a[1..], b[1..]); }
  }

  lemma {:induction false} LessIsTransitive(a: Hash, b: Hash, c: Hash)
    requires Less(a, b) && Less(b, c)
    ensures Less(a, c)
    decreases |a|
  {
    if a != "" && a[0] == b[0] && b[0] == c[0] { LessIsTransitive(a[1..], b[1..], c[1..]); }
  }
}
