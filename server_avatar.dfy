/**
 * A server's avatar: its icon when one is set and has not failed to load,
 * otherwise one or two initials taken from its name.
 */
module ServerAvatar {
  import opened Wrappers
  import opened Text
  import opened Records

  /** The first index at or after `i` holding white space, or `|s|` when there is none. */
  function NextSpace(s: string, i: nat): (k: nat)
    requires i <= |s|
    ensures i <= k <= |s|
    ensures forall j :: i <= j < k ==> !IsSpace(s[j])
    ensures k < |s| ==> IsSpace(s[k])
    decreases |s| - i
  {
    if i == |s| || IsSpace(s[i]) then i else NextSpace(s, i + 1)
  }

  /** The pieces of `s[i..]` between maximal runs of white space. */
  function SplitFrom(s: string, i: nat): (words: seq<string>)
    requires i <= |s|
    ensures |words| >= 1
    decreases |s| - i
  {
    var j := NextSpace(s, i);
    if j == |s| then [s[i..]]
    else
      var k := SkipSpace(s, j);
      assert k != j;
      [s[i..j]] + SplitFrom(s, k)
  }

  /** `s.split(/\s+/)`: a leading or trailing run of white space yields an empty piece. */
  function SplitWs(s: string): (words: seq<string>)
    ensures |words| >= 1
  {
    SplitFrom(s, 0)
  }

  /** Splitting gives a single piece exactly when there is no white space. */
  lemma SingleWordIff(s: string)
    ensures |SplitWs(s)| == 1 <==> forall k :: 0 <= k < |s| ==> !IsSpace(s[k])
  {
    var j := NextSpace(s, 0);
    if j < |s| {
      assert |SplitWs(s)| == 1 + |SplitFrom(s, SkipSpace(s, j))|;
    }
  }

  /** From a non-blank position of a string that does not end in white space,
      every piece is a non-empty word without white space, the first starting at `i`. */
  lemma {:induction false} WordsFrom(s: string, i: nat)
    requires i < |s| && !IsSpace(s[i]) && !IsSpace(s[|s| - 1])
    ensures forall n :: 0 <= n < |SplitFrom(s, i)| ==>
              SplitFrom(s, i)[n] != [] && forall k :: 0 <= k < |SplitFrom(s, i)[n]| ==> !IsSpace(SplitFrom(s, i)[n][k])
    ensures SplitFrom(s, i)[0][0] == s[i]
    decreases |s| - i
  {
    var j := NextSpace(s, i);
    if j < |s| {
      var k := SkipSpace(s, j);
      assert k < |s|;
      WordsFrom(s, k);
      var words := SplitFrom(s, i);
      assert words == [s[i..j]] + SplitFrom(s, k);
      forall n | 1 <= n < |words|
        ensures words[n] == SplitFrom(s, k)[n - 1]
      {
      }
    }
  }

  /** The pieces of a trimmed, non-empty string are non-empty words without white space. */
  lemma WordsOfTrimmed(s: string)
    requires s != [] && IsTrimmed(s)
    ensures forall j :: 0 <= j < |SplitWs(s)| ==>
              SplitWs(s)[j] != [] && forall k :: 0 <= k < |SplitWs(s)[j]| ==> !IsSpace(SplitWs(s)[j][k])
    ensures SplitWs(s)[0][0] == s[0]
  {
    WordsFrom(s, 0);
  }

  /** `getInitials`: two letters of a one-word name, else the first letters of the first two words. */
  function Initials(name: string): (r: string)
    ensures |r| <= 2
  {
    var words := SplitWs(Trim(name));
    if |words| == 1 then UpperStr(Take(words[0], 2))
    else UpperStr(FirstChar(words[0])) + UpperStr(FirstChar(words[1]))
  }

  /** A blank name has no initials. */
  lemma InitialsOfBlank(name: string)
    requires AllSpace(name)
    ensures Initials(name) == ""
  {
  }

  /** Otherwise the first initial is the upper-cased first non-blank character of the name. */
  lemma {:induction false} InitialsFirstLetter(name: string)
    requires !AllSpace(name)
    ensures Initials(name) != [] && Initials(name)[0] == Upper(TrimStart(name)[0])
  {
    var s := Trim(name);
    WordsOfTrimmed(s);
    var words := SplitWs(s);
    assert TrimStart(name)[0] == s[0] by {
      assert s == TrimStart(name)[..|s|];
    }
  }

  /**
   * A name of one word gives the upper-cased first two characters of that
   * word, or all of it when it is shorter.
   */
  lemma InitialsOfOneWord(name: string)
    requires forall k :: 0 <= k < |Trim(name)| ==> !IsSpace(Trim(name)[k])
    ensures Initials(name) == UpperStr(Take(Trim(name), 2))
    ensures |Initials(name)| == if |Trim(name)| < 2 then |Trim(name)| else 2
  {
    var s := Trim(name);
    assert NextSpace(s, 0) == |s|;
    assert s[0..] == s;
    assert SplitWs(s) == [s];
  }

  /** A name of two or more words gives exactly two initials, one per word. */
  lemma {:induction false} InitialsOfTwoWords(name: string)
    requires |SplitWs(Trim(name))| >= 2
    ensures var words := SplitWs(Trim(name));
            words[0] != [] && words[1] != [] && Initials(name) == [Upper(words[0][0]), Upper(words[1][0])]
  {
    var s := Trim(name);
    var words := SplitWs(s);
    assert s != [];
    WordsOfTrimmed(s);
    var a := UpperStr(FirstChar(words[0]));
    var b := UpperStr(FirstChar(words[1]));
    assert a == [Upper(words[0][0])];
    assert b == [Upper(words[1][0])];
    assert Initials(name) == a + b;
  }

  /** White space around the name never changes the initials. */
  lemma InitialsIgnorePadding(a: string, name: string, b: string)
    requires AllSpace(a) && AllSpace(b)
    ensures Initials(a + name + b) == Initials(name)
  {
    TrimIgnoresPadding(a, name, b);
  }

  datatype Avatar = IconImage(url: string) | InitialsTile(text: string)

  /** The icon is shown exactly when one is set and no load error has been recorded. */
  function AvatarFor(server: Server, imageError: bool): (a: Avatar)
    ensures a.IconImage? <==> server.icon.Some? && !imageError
    ensures a.IconImage? ==> a.url == server.icon.value.url
    ensures a.InitialsTile? ==> a.text == Initials(server.name)
  {
    if server.icon.Some? && !imageError then IconImage(server.icon.value.url)
    else InitialsTile(Initials(server.name))
  }
}
