/**
 * Character classes and the whitespace trimming that QString::trimmed performs.
 */
module Text {

  /** QChar::isSpace restricted to the Latin-1 range: tab, LF, VT, FF, CR, space, NEL and NBSP. */
  predicate IsSpace(c: char) {
    c == ' ' || (9 <= c as int <= 13) || c as int == 0x85 || c as int == 0xA0
  }

  /** The string without its leading whitespace: a suffix that does not start with whitespace. */
  function TrimStart(s: string): (t: string)
    ensures |t| <= |s| && t == s[|s| - |t|..]
    ensures t != [] ==> !IsSpace(t[0])
  {
    if s != [] && IsSpace(s[0]) then TrimStart(s[1..]) else s
  }

  /** What TrimStart drops is all whitespace. */
  lemma {:induction false} TrimStartDropsSpace(s: string)
    ensures forall i :: 0 <= i < |s| - |TrimStart(s)| ==> IsSpace(s[i])
  {
    if s != [] && IsSpace(s[0]) {
      TrimStartDropsSpace(s[1..]);
    }
  }

  /** The string without its trailing whitespace: a prefix that does not end with whitespace. */
  function TrimEnd(s: string): (t: string)
    ensures |t| <= |s| && t == s[..|t|]
    ensures t != [] ==> !IsSpace(t[|t| - 1])
  {
    if s != [] && IsSpace(s[|s| - 1]) then TrimEnd(s[..|s| - 1]) else s
  }

  /** What TrimEnd drops is all whitespace. */
  lemma {:induction false} TrimEndDropsSpace(s: string)
    ensures forall i :: |TrimEnd(s)| <= i < |s| ==> IsSpace(s[i])
  {
    if s != [] && IsSpace(s[|s| - 1]) {
      TrimEndDropsSpace(s[..|s| - 1]);
    }
  }

  /** QString::trimmed: whitespace removed from both ends, nothing else touched. */
  function Trim(s: string): (t: string)
    ensures |t| <= |s|
    ensures var a := |s| - |TrimStart(s)|; a + |t| <= |s| && t == s[a..a + |t|]
    ensures t != [] ==> !IsSpace(t[0]) && !IsSpace(t[|t| - 1])
  {
    var u := TrimStart(s);
    var t := TrimEnd(u);
    assert t != [] ==> t[0] == u[0];
    t
  }

  /**
   * Everything Trim drops is whitespace: with the infix property of Trim's contract and
   * its non-space ends, this pins the result down completely.
   */
  lemma TrimDropsOnlySpace(s: string)
    ensures var a := |s| - |TrimStart(s)|;
      forall i :: 0 <= i < |s| && !(a <= i < a + |Trim(s)|) ==> IsSpace(s[i])
  {
    var u := TrimStart(s);
    var a := |s| - |u|;
    var t := TrimEnd(u);
    assert Trim(s) == t;
    TrimStartDropsSpace(s);
    TrimEndDropsSpace(u);
    forall i | a + |t| <= i < |s|
      ensures IsSpace(s[i])
    {
      assert s[i] == u[i - a];
      assert |t| <= i - a < |u|;
    }
  }

  /** A string that neither starts nor ends with whitespace is left as it is. */
  lemma TrimKeeps(s: string)
    requires s == [] || (!IsSpace(s[0]) && !IsSpace(s[|s| - 1]))
    ensures Trim(s) == s
  {
  }

  /** The trimmed string is empty exactly when the string is all whitespace. */
  lemma TrimEmpty(s: string)
    ensures Trim(s) == [] <==> forall i :: 0 <= i < |s| ==> IsSpace(s[i])
  {
    TrimStartDropsSpace(s);
    TrimEndDropsSpace(TrimStart(s));
  }

  /** Trimming twice is trimming once. */
  lemma TrimIdempotent(s: string)
    ensures Trim(Trim(s)) == Trim(s)
  {
    TrimKeeps(Trim(s));
  }
}
