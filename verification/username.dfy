/**
 * `createUsername`: the login handle of an account is built from its
 * owner's name by lower-casing it, splitting it on single spaces, taking
 * the first character of every part and joining those characters. A part
 * left empty by two adjacent spaces (or a leading or trailing space) has no
 * first character; JavaScript reads `undefined` there and `join('')`
 * renders it as the empty string, so it contributes nothing.
 */
module Username {

  /** `toLowerCase`, restricted to ASCII letters. */
  function LowerChar(c: char): char
  {
    if 'A' <= c <= 'Z' then (c as int + 32) as char else c
  }

  function Lower(s: string): string
  {
    seq(|s|, i requires 0 <= i < |s| => LowerChar(s[i]))
  }

  /** `split(' ')`: the text between consecutive spaces, empty parts included. */
  function Split(s: string): (parts: seq<string>)
    ensures |parts| >= 1
    ensures forall k :: 0 <= k < |parts| ==> ' ' !in parts[k]
  {
    if |s| == 0 then [""]
    else
      var rest := Split(s[1..]);
      if s[0] == ' ' then [""] + rest
      else [[s[0]] + rest[0]] + rest[1..]
  }

  /** `join(' ')`, the inverse of Split. */
  function Join(parts: seq<string>): string
  {
    if |parts| == 0 then ""
    else if |parts| == 1 then parts[0]
    else parts[0] + " " + Join(parts[1..])
  }

  /** `map(name => name[0]).join('')`: first characters of the non-empty parts. */
  function Initials(parts: seq<string>): string
  {
    if |parts| == 0 then ""
    else (if |parts[0]| > 0 then [parts[0][0]] else "") + Initials(parts[1..])
  }

  /** The login handle derived from an owner name. */
  function MakeUsername(owner: string): string
  {
    Initials(Split(Lower(owner)))
  }

  /** The words of a name: its non-empty space-separated parts, in order. */
  function Words(parts: seq<string>): (w: seq<string>)
    ensures forall k :: 0 <= k < |w| ==> |w[k]| > 0
  {
    if |parts| == 0 then []
    else (if |parts[0]| > 0 then [parts[0]] else []) + Words(parts[1..])
  }

  // ---------------------------------------------------------------------

  /** Splitting and re-joining on spaces gives back the original text. */
  lemma {:induction false} JoinSplit(s: string)
    ensures Join(Split(s)) == s
    decreases |s|
  {
    if |s| > 0 {
      var rest := Split(s[1..]);
      JoinSplit(s[1..]);
      if s[0] == ' ' {
        assert ([""] + rest)[1..] == rest;
      } else {
        var parts := [[s[0]] + rest[0]] + rest[1..];
        if |rest| == 1 {
          assert Join(parts) == [s[0]] + rest[0];
        } else {
          assert parts[1..] == rest[1..];
          assert Join(rest) == rest[0] + " " + Join(rest[1..]);
          assert Join(parts) == [s[0]] + rest[0] + " " + Join(rest[1..]);
        }
        assert s == [s[0]] + s[1..];
      }
    }
  }

  function CountSpaces(s: string): nat
  {
    if |s| == 0 then 0 else (if s[0] == ' ' then 1 else 0) + CountSpaces(s[1..])
  }

  /** There is one part more than there are spaces. */
  lemma {:induction false} SplitCount(s: string)
    ensures |Split(s)| == CountSpaces(s) + 1
    decreases |s|
  {
    if |s| > 0 {
      SplitCount(s[1..]);
    }
  }

  /** Lower-casing does not move spaces, so it commutes with splitting. */
  lemma {:induction false} SplitLower(s: string)
    ensures |Split(Lower(s))| == |Split(s)|
    ensures forall k :: 0 <= k < |Split(s)| ==> Split(Lower(s))[k] == Lower(Split(s)[k])
    decreases |s|
  {
    if |s| > 0 {
      var l := Lower(s);
      assert l[1..] == Lower(s[1..]);
      SplitLower(s[1..]);
      var rest, lrest := Split(s[1..]), Split(l[1..]);
      if s[0] != ' ' {
        assert Lower([s[0]] + rest[0]) == [l[0]] + lrest[0];
      }
    }
  }

  /** The initials of parts are the first characters of their words. */
  lemma {:induction false} InitialsOfWords(parts: seq<string>)
    ensures |Initials(parts)| == |Words(parts)|
    ensures forall k :: 0 <= k < |Words(parts)| ==> Initials(parts)[k] == Words(parts)[k][0]
    decreases |parts|
  {
    if |parts| > 0 {
      InitialsOfWords(parts[1..]);
    }
  }

  /** Words of lower-cased parts are the lower-cased words. */
  lemma {:induction false} WordsLower(parts: seq<string>, lparts: seq<string>)
    requires |lparts| == |parts|
    requires forall k :: 0 <= k < |parts| ==> lparts[k] == Lower(parts[k])
    ensures |Words(lparts)| == |Words(parts)|
    ensures forall k :: 0 <= k < |Words(parts)| ==> Words(lparts)[k] == Lower(Words(parts)[k])
    decreases |parts|
  {
    if |parts| > 0 {
      WordsLower(parts[1..], lparts[1..]);
    }
  }

  /**
   * The handle has exactly one character per word of the owner name, and
   * that character is the word's first letter, lower-cased.
   */
  lemma UsernameIsLoweredInitials(owner: string)
    ensures |MakeUsername(owner)| == |Words(Split(owner))|
    ensures forall k :: 0 <= k < |Words(Split(owner))| ==>
      MakeUsername(owner)[k] == LowerChar(Words(Split(owner))[k][0])
  {
    var parts := Split(owner);
    var lparts := Split(Lower(owner));
    SplitLower(owner);
    WordsLower(parts, lparts);
    InitialsOfWords(lparts);
  }

  /** A word followed by a space splits off as one part. */
  lemma {:induction false} SplitWord(w: string, rest: string)
    requires ' ' !in w
    ensures Split(w) == [w]
    ensures Split(w + " " + rest) == [w] + Split(rest)
    decreases |w|
  {
    if |w| > 0 {
      assert ' ' !in w[1..] by { assert forall c :: c in w[1..] ==> c in w; }
      SplitWord(w[1..], rest);
      assert (w + " " + rest)[1..] == w[1..] + " " + rest;
      assert [w[0]] + w[1..] == w;
    } else {
      assert w + " " + rest == " " + rest;
    }
  }

  /** A two-word name gives the two lower-cased initials, e.g. "Jessica Davis" gives "jd". */
  lemma TwoWordUsername(w1: string, w2: string)
    requires |w1| > 0 && |w2| > 0 && ' ' !in w1 && ' ' !in w2
    ensures MakeUsername(w1 + " " + w2) == [LowerChar(w1[0]), LowerChar(w2[0])]
  {
    SplitWord(w1, w2);
    SplitWord(w2, "");
    assert Split(w1 + " " + w2) == [w1, w2];
    assert Words([w2]) == [w2] by {
      assert [w2][1..] == [];
    }
    assert Words([w1, w2]) == [w1, w2] by {
      assert [w1, w2][1..] == [w2];
    }
    UsernameIsLoweredInitials(w1 + " " + w2);
  }

  lemma SplitThree(w1: string, w2: string, w3: string)
    requires ' ' !in w1 && ' ' !in w2 && ' ' !in w3
    ensures Split(w1 + " " + (w2 + " " + w3)) == [w1, w2, w3]
  {
    SplitWord(w3, "");
    SplitWord(w2, w3);
    SplitWord(w1, w2 + " " + w3);
  }

  lemma WordsThree(w1: string, w2: string, w3: string)
    requires |w1| > 0 && |w2| > 0 && |w3| > 0
    ensures Words([w1, w2, w3]) == [w1, w2, w3]
  {
    assert Words([w3]) == [w3] by {
      assert [w3][1..] == [];
    }
    assert Words([w2, w3]) == [w2, w3] by {
      assert [w2, w3][1..] == [w3];
    }
    assert [w1, w2, w3][1..] == [w2, w3];
  }

  /** A three-word name yields exactly its three lower-cased initials. */
  lemma ThreeWordUsername(w1: string, w2: string, w3: string)
    requires |w1| > 0 && |w2| > 0 && |w3| > 0 && ' ' !in w1 && ' ' !in w2 && ' ' !in w3
    ensures MakeUsername(w1 + " " + (w2 + " " + w3)) == [LowerChar(w1[0]), LowerChar(w2[0]), LowerChar(w3[0])]
  {
    var name := w1 + " " + (w2 + " " + w3);
    SplitThree(w1, w2, w3);
    WordsThree(w1, w2, w3);
    UsernameIsLoweredInitials(name);
  }

  /** The handle of the third sample account. */
  lemma StevenThomasWilliams()
    ensures MakeUsername("Steven Thomas Williams") == "stw"
  {
    assert "Steven Thomas Williams" == "Steven" + " " + ("Thomas" + " " + "Williams");
    ThreeWordUsername("Steven", "Thomas", "Williams");
  }
}
