/** Values and string operations of the JavaScript runtime that the handlers
    and components rely on. */
module Js {

  /** A value that may be `undefined` (or `null`). */
  datatype Option<+T> = None | Some(value: T)

  /** The settled outcome of an awaited call (a `fetch` followed by reading
      its body): the value it resolved to, or the message of what it threw. */
  datatype Call<+T> = Returned(value: T) | Threw(message: string)

  /** `response.ok` of a `fetch` reply with this status. */
  predicate Ok(status: int)
  {
    200 <= status <= 299
  }

  /** JavaScript truthiness of a string that may be missing: `undefined` and
      `""` are falsy, every other string is truthy. */
  predicate Truthy(s: Option<string>)
  {
    s.Some? && s.value != ""
  }

  /** `s.includes(part)`: `part` occurs in `s` as a contiguous block. */
  predicate Includes(s: string, part: string)
    decreases |s|
  {
    part <= s || (s != [] && Includes(s[1..], part))
  }

  /** `part` occurs in `s` starting at offset `i`. */
  predicate OccursAt(s: string, part: string, i: nat)
  {
    i + |part| <= |s| && s[i..i + |part|] == part
  }

  /** An occurrence at a known offset makes `Includes` hold. */
  lemma {:induction false} IncludesAt(s: string, part: string, i: nat)
    requires OccursAt(s, part, i)
    ensures Includes(s, part)
    decreases i
  {
    if i == 0 {
      assert part <= s;
    } else {
      assert s[1..][i - 1..i - 1 + |part|] == s[i..i + |part|];
      IncludesAt(s[1..], part, i - 1);
    }
  }

  /** `Includes` holds only through an occurrence at some offset. */
  lemma {:induction false} IncludesWitness(s: string, part: string)
    requires Includes(s, part)
    ensures exists i: nat :: OccursAt(s, part, i)
    decreases |s|
  {
    if part <= s {
      assert OccursAt(s, part, 0);
    } else {
      IncludesWitness(s[1..], part);
      var i: nat :| OccursAt(s[1..], part, i);
      assert s[i + 1..i + 1 + |part|] == s[1..][i..i + |part|];
      assert OccursAt(s, part, i + 1);
    }
  }

  /** Where a block is included, so is the block without its first element. */
  lemma IncludesTail(s: string, c: char, part: string)
    ensures Includes(s, [c] + part) ==> Includes(s, part)
  {
    if Includes(s, [c] + part) {
      IncludesWitness(s, [c] + part);
      var i: nat :| OccursAt(s, [c] + part, i);
      assert s[i + 1..i + 1 + |part|] == s[i..i + 1 + |part|][1..];
      IncludesAt(s, part, i + 1);
    }
  }

  /** A block holding a character that never occurs in `s` is not included. */
  lemma {:induction false} NotIncludedWithoutChar(s: string, part: string, j: nat)
    requires j < |part| && part[j] !in s
    ensures !Includes(s, part)
    decreases |s|
  {
    if s != [] {
      assert j < |s| ==> s[j] in s;
      assert forall c :: c in s[1..] ==> c in s;
      NotIncludedWithoutChar(s[1..], part, j);
    }
  }

  /** `parts.join(sep)`. */
  function Join(parts: seq<string>, sep: string): string
  {
    if parts == [] then []
    else if |parts| == 1 then parts[0]
    else parts[0] + sep + Join(parts[1..], sep)
  }

  /** A join of several parts is the first part, a separator and the join
      of the rest. */
  lemma JoinHead(parts: seq<string>, sep: string)
    requires |parts| > 1
    ensures Join(parts, sep) == parts[0] + (sep + Join(parts[1..], sep))
  {
    var x, y := sep, Join(parts[1..], sep);
    assert parts[0] + x + y == parts[0] + (x + y);
  }

  /** `a` is `b` with some elements dropped. */
  predicate IsSubsequence<T(==)>(a: seq<T>, b: seq<T>)
    decreases |b|
  {
    a == [] || (b != [] && (if a[0] == b[0] then IsSubsequence(a[1..], b[1..]) else IsSubsequence(a, b[1..])))
  }

  /** A part that itself contains the separator joins to the same text as
      its two halves. */
  lemma {:induction false} JoinSplitsPart(a: seq<string>, x: string, y: string, b: seq<string>, sep: string)
    ensures Join(a + [x + sep + y] + b, sep) == Join(a + [x, y] + b, sep)
    decreases |a|
  {
    if a == [] {
      assert a + [x + sep + y] + b == [x + sep + y] + b;
      assert a + [x, y] + b == [x, y] + b;
      assert ([x, y] + b)[1..] == [y] + b;
      if b != [] {
        assert ([x + sep + y] + b)[1..] == b;
        assert ([y] + b)[1..] == b;
      }
    } else {
      JoinSplitsPart(a[1..], x, y, b, sep);
      assert (a + [x + sep + y] + b)[1..] == a[1..] + [x + sep + y] + b;
      assert (a + [x, y] + b)[1..] == a[1..] + [x, y] + b;
    }
  }
}
