/**
 Sequence and string helpers with the semantics of JavaScript's
 `Array.prototype.join` and of `String.prototype.split` with a one-character
 separator.
 */
module Strings {

  /** `parts.join(sep)`: the parts in order with `sep` between neighbours,
      the empty sequence for no parts and the part itself for one. */
  function Join<T>(sep: seq<T>, parts: seq<seq<T>>): (r: seq<T>)
    ensures |parts| == 0 ==> r == []
    ensures |parts| >= 1 ==> |parts[0]| <= |r| && r[..|parts[0]|] == parts[0]
    ensures |parts| >= 2 ==> |parts[0] + sep| <= |r| && r[..|parts[0] + sep|] == parts[0] + sep
  {
    if |parts| == 0 then []
    else if |parts| == 1 then parts[0]
    else parts[0] + sep + Join(sep, parts[1..])
  }

  /** Joining two non-empty lists of parts puts one separator between the halves. */
  lemma {:induction false} JoinAppend<T>(sep: seq<T>, a: seq<seq<T>>, b: seq<seq<T>>)
    requires |a| >= 1 && |b| >= 1
    ensures Join(sep, a + b) == Join(sep, a) + sep + Join(sep, b)
    decreases |a|
  {
    if |a| == 1 {
      assert (a + b)[1..] == b;
    } else {
      assert (a + b)[1..] == a[1..] + b;
      JoinAppend(sep, a[1..], b);
    }
  }

  /** Three parts joined: the separator between each neighbouring pair. */
  lemma JoinThree<T>(sep: seq<T>, x: seq<T>, y: seq<T>, z: seq<T>)
    ensures Join(sep, [x, y, z]) == x + sep + y + sep + z
  {
    assert [x, y, z][1..] == [y, z];
    assert [y, z][1..] == [z];
    assert Join(sep, [y, z]) == y + sep + z;
  }

  /** With a non-empty separator, a join is empty exactly when there is no
      part, or one part that is itself empty. */
  lemma JoinEmptyIff<T>(sep: seq<T>, parts: seq<seq<T>>)
    requires |sep| >= 1
    ensures Join(sep, parts) == [] <==> |parts| == 0 || (|parts| == 1 && parts[0] == [])
  {
  }

  /** `s.split(c)`: the maximal runs of `s` between occurrences of `c`;
      always at least one piece, and `""` splits to `[""]`. */
  function Split(c: char, s: string): (r: seq<string>)
    ensures |r| >= 1
    ensures forall i :: 0 <= i < |r| ==> c !in r[i]
    decreases |s|
  {
    if |s| == 0 then [""]
    else
      var rest := Split(c, s[1..]);
      if s[0] == c then [""] + rest
      else [[s[0]] + rest[0]] + rest[1..]
  }

  /** Join undoes Split: re-inserting the separator between the pieces gives
      back the original string. */
  lemma {:induction false} JoinSplit(c: char, s: string)
    ensures Join([c], Split(c, s)) == s
    decreases |s|
  {
    if |s| > 0 {
      var rest := Split(c, s[1..]);
      JoinSplit(c, s[1..]);
      if s[0] == c {
        assert ([""] + rest)[1..] == rest;
      } else if |rest| >= 2 {
        var r := [[s[0]] + rest[0]] + rest[1..];
        assert r[1..] == rest[1..];
        assert Join([c], rest) == rest[0] + [c] + Join([c], rest[1..]);
        assert Join([c], r) == [s[0]] + s[1..];
      }
    }
  }

  /** Splitting at one occurrence of the separator splits each side independently. */
  lemma {:induction false} SplitAroundSeparator(c: char, a: string, b: string)
    ensures Split(c, a + [c] + b) == Split(c, a) + Split(c, b)
    decreases |a|
  {
    if |a| == 0 {
      assert a + [c] + b == [c] + b;
      assert ([c] + b)[1..] == b;
    } else {
      assert (a + [c] + b)[1..] == a[1..] + [c] + b;
      SplitAroundSeparator(c, a[1..], b);
    }
  }

  /** A string without the separator splits to itself. */
  lemma {:induction false} SplitWithoutSeparator(c: char, s: string)
    requires c !in s
    ensures Split(c, s) == [s]
    decreases |s|
  {
    if |s| > 0 {
      assert c !in s[1..];
      SplitWithoutSeparator(c, s[1..]);
      assert [s[0]] + s[1..] == s;
    }
  }

  /** Split undoes Join when no part holds the separator. */
  lemma {:induction false} SplitJoin(c: char, parts: seq<string>)
    requires |parts| >= 1
    requires forall i :: 0 <= i < |parts| ==> c !in parts[i]
    ensures Split(c, Join([c], parts)) == parts
    decreases |parts|
  {
    SplitWithoutSeparator(c, parts[0]);
    if |parts| >= 2 {
      SplitJoin(c, parts[1..]);
      SplitAroundSeparator(c, parts[0], Join([c], parts[1..]));
      assert parts == [parts[0]] + parts[1..];
    }
  }

  /** Each part split on `c`, in order. */
  function SplitEach(c: char, parts: seq<string>): (r: seq<seq<string>>)
  {
    seq(|parts|, i requires 0 <= i < |parts| => Split(c, parts[i]))
  }

  /** Splitting a join on the doubled separator `c c` yields the pieces of
      each part, with one empty piece between neighbouring parts. */
  lemma {:induction false} SplitJoinDoubled(c: char, parts: seq<string>)
    requires |parts| >= 1
    ensures Split(c, Join([c, c], parts)) == Join([""], SplitEach(c, parts))
    decreases |parts|
  {
    if |parts| >= 2 {
      var tail := Join([c, c], parts[1..]);
      var all := SplitEach(c, parts);
      var right: string := [c] + tail;
      assert Join([""], all) == all[0] + ([""] + Join([""], all[1..])) by {
        assert all[1..] == SplitEach(c, parts[1..]);
      }
      assert Split(c, right) == [""] + Join([""], all[1..]) by {
        SplitAroundSeparator(c, [], tail);
        assert [] + [c] + tail == right;
        SplitJoinDoubled(c, parts[1..]);
        assert all[1..] == SplitEach(c, parts[1..]);
      }
      assert Split(c, Join([c, c], parts)) == all[0] + Split(c, right) by {
        assert Join([c, c], parts) == parts[0] + [c] + right;
        SplitAroundSeparator(c, parts[0], right);
      }
    } else {
      assert SplitEach(c, parts) == [Split(c, parts[0])];
    }
  }
}
