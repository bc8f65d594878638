/** Shared vocabulary: optional values, results carrying a Go error message, bytes. */
module Common {

  /** A value that may be absent (a nil pointer, a missing cookie, a failed parse). */
  datatype Option<T> = None | Some(value: T)

  /** The `(value, error)` pair of a Go call: either a value or the error's message. */
  datatype Result<T> = Ok(value: T) | Err(msg: string)

  /** A Go `byte`. `^` on bv8 is the bitwise exclusive or. */
  type byte = bv8

  /** A Go `[]byte`, also used for Go strings that hold binary or ASCII data. */
  type Bytes = seq<byte>

  /**
   * A JSON encoding of values of type `T` (`json.Marshal` and `json.Unmarshal`):
   * `decode` yields the decoded value, or `None` when Unmarshal reports an error.
   */
  datatype Codec<!T> = Codec(encode: T -> Bytes, decode: Bytes -> Option<T>)

  /** Unmarshalling what was marshalled gives the value back. */
  ghost predicate RoundTrips<T(!new)>(c: Codec<T>) {
    forall v :: c.decode(c.encode(v)) == Some(v)
  }

  /** The elements of `s` satisfying `p`, in order (a query's result rows). */
  function Filter<T>(s: seq<T>, p: T -> bool): (r: seq<T>)
    ensures |r| <= |s|
    ensures forall i :: 0 <= i < |r| ==> r[i] in s && p(r[i])
    ensures forall i :: 0 <= i < |s| && p(s[i]) ==> s[i] in r
    decreases |s|
  {
    if |s| == 0 then []
    else if p(s[0]) then [s[0]] + Filter(s[1..], p)
    else Filter(s[1..], p)
  }

  /** The first row of a filtered result is the first element of `s` that satisfies `p`. */
  lemma {:induction false} FilterFirst<T>(s: seq<T>, p: T -> bool)
    requires Filter(s, p) != []
    ensures exists i :: (0 <= i < |s| && s[i] == Filter(s, p)[0] && p(s[i])
      && forall j :: 0 <= j < i ==> !p(s[j]))
    decreases |s|
  {
    if !p(s[0]) {
      FilterFirst(s[1..], p);
      var i :| (0 <= i < |s[1..]| && s[1..][i] == Filter(s[1..], p)[0] && p(s[1..][i])
        && forall j :: 0 <= j < i ==> !p(s[1..][j]));
      assert s[i + 1] == s[1..][i];
      forall j | 0 <= j < i + 1
        ensures !p(s[j])
      {
        if j > 0 { assert s[j] == s[1..][j - 1]; }
      }
    }
  }

  /** Filtering a sequence one element longer appends that element when it passes. */
  lemma {:induction false} FilterSnoc<T>(s: seq<T>, x: T, p: T -> bool)
    ensures Filter(s + [x], p) == Filter(s, p) + (if p(x) then [x] else [])
    decreases |s|
  {
    if |s| > 0 {
      assert (s + [x])[0] == s[0];
      assert (s + [x])[1..] == s[1..] + [x];
      FilterSnoc(s[1..], x, p);
    } else {
      assert s + [x] == [x];
      assert [x][1..] == [];
    }
  }

  /** The same step, stated on the prefixes of one sequence. */
  lemma FilterPrefix<T>(s: seq<T>, i: int, p: T -> bool)
    requires 0 <= i < |s|
    ensures Filter(s[..i + 1], p) == Filter(s[..i], p) + (if p(s[i]) then [s[i]] else [])
  {
    assert s[..i + 1] == s[..i] + [s[i]];
    FilterSnoc(s[..i], s[i], p);
  }
}
