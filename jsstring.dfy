/** String.prototype.split with a one-character separator, as the endpoint
    uses it on the email parameter, and its inverse, Array.prototype.join. */
module JsString {

  /** `s.split(sep)`: the maximal runs of `s` between separators, in order.
      The empty string splits into one empty part, and a separator at either
      end yields an empty first or last part. */
  function Split(s: string, sep: char): (parts: seq<string>)
    ensures |parts| >= 1
  {
    if |s| == 0 then [""]
    else
      var rest := Split(s[1..], sep);
      if s[0] == sep then [""] + rest
      else [[s[0]] + rest[0]] + rest[1..]
  }

  /** `parts.join(sep)`: the parts with one separator between neighbours. */
  function Join(parts: seq<string>, sep: char): string
    requires |parts| >= 1
  {
    parts[0] + JoinTail(parts[1..], sep)
  }

  /** Each part preceded by a separator. */
  function JoinTail(parts: seq<string>, sep: char): string {
    if |parts| == 0 then "" else [sep] + parts[0] + JoinTail(parts[1..], sep)
  }

  /** No part returned by Split contains its separator, and joining the
      parts back gives the original string. */
  lemma {:induction false} SplitJoinsBack(s: string, sep: char)
    ensures forall i :: 0 <= i < |Split(s, sep)| ==> sep !in Split(s, sep)[i]
    ensures Join(Split(s, sep), sep) == s
  {
    if |s| > 0 {
      var rest := Split(s[1..], sep);
      SplitJoinsBack(s[1..], sep);
      if s[0] == sep {
        assert ([""] + rest)[1..] == rest;
        assert Join([""] + rest, sep) == JoinTail(rest, sep);
        assert s == [sep] + s[1..];
      } else {
        var parts := [[s[0]] + rest[0]] + rest[1..];
        assert parts[1..] == rest[1..];
        assert Join(parts, sep) == [s[0]] + Join(rest, sep);
        assert s == [s[0]] + s[1..];
        forall i | 0 <= i < |parts|
          ensures sep !in parts[i]
        {
          if i > 0 {
            assert parts[i] == rest[i];
          }
        }
      }
    }
  }

  /** Conversely, splitting a join of separator-free parts gives the parts
      back. */
  lemma {:induction false} JoinSplitsBack(parts: seq<string>, sep: char)
    requires |parts| >= 1
    requires forall i :: 0 <= i < |parts| ==> sep !in parts[i]
    ensures Split(Join(parts, sep), sep) == parts
    decreases |Join(parts, sep)|
  {
    var s := Join(parts, sep);
    if |parts[0]| == 0 {
      if |parts| > 1 {
        var tail := parts[1..];
        assert s == [sep] + Join(tail, sep) by {
          assert tail[1..] == parts[2..];
        }
        JoinSplitsBack(tail, sep);
        assert s[1..] == Join(tail, sep);
        assert [""] + tail == parts;
      }
    } else {
      var c := parts[0][0];
      var shorter := [parts[0][1..]] + parts[1..];
      assert shorter[1..] == parts[1..];
      assert c != sep by { assert c == parts[0][0]; }
      forall i | 0 <= i < |shorter|
        ensures sep !in shorter[i]
      {
        if i == 0 {
          assert forall x :: x in parts[0][1..] ==> x in parts[0];
        } else {
          assert shorter[i] == parts[i];
        }
      }
      assert s == [c] + Join(shorter, sep) by {
        assert parts[0] == [c] + parts[0][1..];
      }
      JoinSplitsBack(shorter, sep);
      assert s[1..] == Join(shorter, sep);
      assert [[c] + shorter[0]] + shorter[1..] == parts by {
        assert [c] + shorter[0] == parts[0];
      }
    }
  }

  /** A string splits into a single part exactly when it has no separator. */
  lemma {:induction false} OnePartIffNoSeparator(s: string, sep: char)
    ensures |Split(s, sep)| == 1 <==> sep !in s
  {
    if |s| > 0 {
      OnePartIffNoSeparator(s[1..], sep);
      assert s == [s[0]] + s[1..];
    }
  }
}
