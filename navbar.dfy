/** The avatar initials the navbar shows for the signed-in user. */
module Navbar {
  import opened Types
  import opened Strings

  /** `parts.map(n => n[0]).join("")`: the first character of every part; an
      empty part gives `undefined`, which `join` renders as nothing. So there
      is at most one character per part, exactly one when no part is empty,
      and each is the first character of some part. */
  function Heads(parts: seq<string>): (r: string)
    ensures |r| <= |parts|
    ensures (forall j :: 0 <= j < |parts| ==> parts[j] != []) ==> |r| == |parts|
    ensures forall i :: 0 <= i < |r| ==> exists j :: 0 <= j < |parts| && parts[j] != [] && r[i] == parts[j][0]
    decreases |parts|
  {
    if parts == [] then []
    else
      var t := Heads(parts[1..]);
      assert forall i :: 0 <= i < |t| ==> exists j :: 0 <= j < |parts| && parts[j] != [] && t[i] == parts[j][0] by {
        forall i | 0 <= i < |t|
          ensures exists j :: 0 <= j < |parts| && parts[j] != [] && t[i] == parts[j][0]
        {
          var j :| 0 <= j < |parts[1..]| && parts[1..][j] != [] && t[i] == parts[1..][j][0];
          assert parts[j + 1] == parts[1..][j];
        }
      }
      (if parts[0] == [] then [] else [parts[0][0]]) + t
  }

  /** Reference definition: the characters that begin a word, that is every
      non-space character at the start or right after a space. */
  function WordStarts(s: string, atStart: bool): string
    decreases |s|
  {
    if s == [] then []
    else if s[0] == ' ' then WordStarts(s[1..], true)
    else (if atStart then [s[0]] else []) + WordStarts(s[1..], false)
  }

  lemma {:induction false} HeadsOfSplit(s: string, atStart: bool)
    ensures var parts := Split(s, ' ');
      WordStarts(s, atStart) == (if atStart && parts[0] != [] then [parts[0][0]] else []) + Heads(parts[1..])
    decreases |s|
  {
    if s != [] {
      var parts := Split(s, ' ');
      var rest := Split(s[1..], ' ');
      if s[0] == ' ' {
        HeadsOfSplit(s[1..], true);
        assert parts[1..] == rest;
      } else {
        HeadsOfSplit(s[1..], false);
        assert parts[1..] == rest[1..];
      }
    }
  }

  /** Splitting on spaces and taking first characters picks exactly the word
      starts: empty pieces from leading, trailing or repeated spaces add nothing. */
  lemma HeadsAreWordStarts(s: string)
    ensures Heads(Split(s, ' ')) == WordStarts(s, true)
  {
    HeadsOfSplit(s, true);
  }

  lemma {:induction false} WordStartsAppend(a: string, b: string, atStart: bool)
    ensures WordStarts(a + b, atStart)
         == WordStarts(a, atStart) + WordStarts(b, if a == [] then atStart else a[|a| - 1] == ' ')
    decreases |a|
  {
    if a == [] {
      assert a + b == b;
    } else {
      assert (a + b)[0] == a[0] && (a + b)[1..] == a[1..] + b;
      WordStartsAppend(a[1..], b, a[0] == ' ');
    }
  }

  /** A doubled space starts no word. */
  lemma WordStartsDoubleSpace(a: string, b: string)
    ensures WordStarts(a + "  " + b, true) == WordStarts(a + " " + b, true)
  {
    assert a + "  " + b == a + ("  " + b);
    assert a + " " + b == a + (" " + b);
    WordStartsAppend(a, "  " + b, true);
    WordStartsAppend(a, " " + b, true);
    assert ("  " + b)[1..] == " " + b;
    assert (" " + b)[1..] == b;
  }

  /** A trailing space starts no word. */
  lemma WordStartsTrailingSpace(a: string)
    ensures WordStarts(a + " ", true) == WordStarts(a, true)
  {
    WordStartsAppend(a, " ", true);
    assert " "[1..] == [];
  }

  function Min(a: int, b: int): int {
    if a < b then a else b
  }

  /** `full_name?.split(" ").map(n => n[0]).join("").toUpperCase().slice(0, 2)
      || email?.[0]?.toUpperCase() || "U"`. */
  function Initials(fullName: Option<string>, email: Option<string>): (r: string)
    ensures 1 <= |r| <= 2
    ensures fullName.Some? && WordStarts(fullName.value, true) != [] ==>
      var w := WordStarts(fullName.value, true);
      r == Upper(w)[..Min(2, |w|)]
    ensures (fullName.None? || WordStarts(fullName.value, true) == []) && email.Some? && email.value != [] ==>
      r == [UpperChar(email.value[0])]
    ensures (fullName.None? || WordStarts(fullName.value, true) == []) && (email.None? || email.value == []) ==>
      r == "U"
  {
    var fromName := if fullName.Some? then
        HeadsAreWordStarts(fullName.value);
        var up := Upper(Heads(Split(fullName.value, ' ')));
        up[..Min(2, |up|)]
      else "";
    if fromName != "" then fromName
    else if email.Some? && email.value != "" then Upper([email.value[0]])
    else "U"
  }

  /** Leading, trailing and doubled spaces in the name change nothing. */
  lemma SpacesContributeNothing(a: string, b: string, email: Option<string>)
    ensures Initials(Some(a + "  " + b), email) == Initials(Some(a + " " + b), email)
    ensures Initials(Some(" " + a), email) == Initials(Some(a), email)
    ensures Initials(Some(a + " "), email) == Initials(Some(a), email)
  {
    WordStartsDoubleSpace(a, b);
    WordStartsTrailingSpace(a);
    assert (" " + a)[1..] == a;
  }
}
