/** CustomNamingStrategy: physical column names in snake case */
module CustomNamingStrategy {

  import Text

  /** A Hibernate identifier: its text and whether it is quoted */
  datatype Identifier = Identifier(text: string, quoted: bool)

  /** An underscore goes before position p when p is strictly inside the string and its
      neighbours are lower, upper, lower */
  predicate BreakAt(s: string, p: int) {
    1 <= p < |s| - 1 && Text.IsLower(s[p - 1]) && Text.IsUpper(s[p]) && Text.IsLower(s[p + 1])
  }

  /** The number of break positions before j */
  function Breaks(s: string, j: nat): nat
    requires j <= |s|
  {
    if j == 0 then 0 else Breaks(s, j - 1) + (if BreakAt(s, j - 1) then 1 else 0)
  }

  /** The first j characters of s with an underscore put before each break position among them */
  function Marked(s: string, j: nat): string
    requires j <= |s|
  {
    if j == 0 then ""
    else Marked(s, j - 1) + (if BreakAt(s, j - 1) then "_" else "") + [s[j - 1]]
  }

  /** Marking lengthens the prefix by exactly the number of breaks in it */
  lemma {:induction false} MarkedLength(s: string, j: nat)
    requires j <= |s|
    ensures |Marked(s, j)| == j + Breaks(s, j)
    decreases j
  {
    if j > 0 {
      MarkedLength(s, j - 1);
    }
  }

  /** The marked prefix ends in the prefix's last character */
  lemma MarkedLast(s: string, j: nat)
    requires 0 < j <= |s|
    ensures j <= |Marked(s, j)|
    ensures Marked(s, j)[|Marked(s, j)| - 1] == s[j - 1]
  {
    MarkedLength(s, j);
  }

  /** Marking only adds underscores: every character of the result is one of the input or '_' */
  lemma {:induction false} MarkedChars(s: string, j: nat)
    requires j <= |s|
    ensures forall c :: c in Marked(s, j) ==> c in s[..j] || c == '_'
    decreases j
  {
    if j > 0 {
      MarkedChars(s, j - 1);
      assert s[..j - 1] <= s[..j];
    }
  }

  /** The column name addUnderscores produces */
  function Snake(name: string): string {
    var s := Text.Replace(name, '.', '_');
    Text.ToLower(Marked(s, |s|))
  }

  /** addUnderscores: dots become underscores, an underscore is inserted at each lower-upper-lower
      boundary, and the result is lower-cased; the buffer is edited in place as the scan runs */
  method AddUnderscores(name: string) returns (r: string)
    ensures r == Snake(name)
  {
    var buf := Text.Replace(name, '.', '_');
    ghost var s := buf;
    if |buf| == 0 {
      return Text.ToLower(buf);
    }
    var i := 1;
    ghost var j := 1;
    while i < |buf| - 1
      invariant 1 <= j <= |s|
      invariant i == |Marked(s, j)|
      invariant buf == Marked(s, j) + s[j..]
      decreases |s| - j
    {
      BufferAt(s, j);
      if Text.IsLower(buf[i - 1]) && Text.IsUpper(buf[i]) && Text.IsLower(buf[i + 1]) {
        buf := buf[..i] + "_" + buf[i..];
        i := i + 1;
      }
      MarkedStep(s, j);
      i := i + 1;
      j := j + 1;
    }
    MarkedEnd(s, j);
    r := Text.ToLower(buf);
  }

  /** The buffer at a scan position j shows the original characters j - 1, j and j + 1 */
  lemma BufferAt(s: string, j: nat)
    requires 1 <= j < |s| - 1
    ensures var b := Marked(s, j) + s[j..];
            var i := |Marked(s, j)|;
            b[i - 1] == s[j - 1] && b[i] == s[j] && b[i + 1] == s[j + 1]
  {
    MarkedLast(s, j);
  }

  /** One scan step: the buffer either gains an underscore before position j or does not */
  lemma MarkedStep(s: string, j: nat)
    requires 1 <= j < |s|
    ensures Marked(s, j + 1) + s[j + 1..] ==
              Marked(s, j) + (if BreakAt(s, j) then "_" else "") + s[j..]
  {
    assert s[j..] == [s[j]] + s[j + 1..];
  }

  /** When the scan stops, the buffer is the fully marked string */
  lemma MarkedEnd(s: string, j: nat)
    requires 1 <= j <= |s|
    requires !(|Marked(s, j)| < |Marked(s, j) + s[j..]| - 1)
    ensures Marked(s, j) + s[j..] == Marked(s, |s|)
  {
    if j == |s| - 1 {
      assert !BreakAt(s, j);
      assert s[j..] == [s[j]];
    }
  }

  /** toPhysicalColumnName: the snake-case text, with the quoting kept */
  method ToPhysicalColumnName(name: Identifier) returns (r: Identifier)
    ensures r == Identifier(Snake(name.text), name.quoted)
  {
    var text := AddUnderscores(name.text);
    r := Identifier(text, name.quoted);
  }

  /** The output has no dots and no upper-case letters, and is longer than the input by the
      number of inserted underscores */
  lemma SnakeShape(name: string)
    ensures '.' !in Snake(name)
    ensures forall i :: 0 <= i < |Snake(name)| ==> !Text.IsUpper(Snake(name)[i])
    ensures |Snake(name)| == |name| + Breaks(Text.Replace(name, '.', '_'), |name|)
  {
    var s := Text.Replace(name, '.', '_');
    var m := Marked(s, |s|);
    MarkedChars(s, |s|);
    MarkedLength(s, |s|);
    assert s[..|s|] == s;
    assert '.' !in m;
  }

  /** Where no break position lies in [i, j), the characters are copied unchanged */
  lemma {:induction false} MarkedFrom(s: string, i: nat, j: nat)
    requires i <= j <= |s|
    requires forall p :: i <= p < j ==> !BreakAt(s, p)
    ensures Marked(s, j) == Marked(s, i) + s[i..j]
    decreases j
  {
    if j > i {
      MarkedFrom(s, i, j - 1);
      assert s[i..j] == s[i..j - 1] + [s[j - 1]];
    }
  }

  /** Without upper-case letters nothing is inserted */
  lemma MarkedNoUpper(s: string)
    requires forall i :: 0 <= i < |s| ==> !Text.IsUpper(s[i])
    ensures Marked(s, |s|) == s
  {
    MarkedFrom(s, 0, |s|);
    assert s[0..|s|] == s;
  }

  /** Applying the strategy to its own output changes nothing */
  lemma SnakeIdempotent(name: string)
    ensures Snake(Snake(name)) == Snake(name)
  {
    var t := Snake(name);
    SnakeShape(name);
    var s := Text.Replace(t, '.', '_');
    assert s == t;
    MarkedNoUpper(s);
    assert Text.ToLower(t) == t;
  }

  /** Replacing a character that does not occur changes nothing */
  lemma ReplaceAbsent(s: string, from: char, to: char)
    requires from !in s
    ensures Text.Replace(s, from, to) == s
  {
    assert forall i :: 0 <= i < |s| ==> s[i] != from;
  }

  /** No break position lies in a stretch without upper-case letters */
  lemma NoBreakWithoutUpper(s: string, i: nat, j: nat)
    requires i <= j <= |s|
    requires forall p :: i <= p < j ==> !Text.IsUpper(s[p])
    ensures forall p :: i <= p < j ==> !BreakAt(s, p)
  {
  }

  /** A single break position k in [i, j) puts one underscore before s[k] */
  lemma MarkedOneBreak(s: string, i: nat, k: nat, j: nat)
    requires i <= k < j <= |s|
    requires BreakAt(s, k)
    requires forall p :: i <= p < j && p != k ==> !BreakAt(s, p)
    ensures Marked(s, j) == Marked(s, i) + s[i..k] + "_" + s[k..j]
  {
    MarkedFrom(s, i, k);
    var mk := Marked(s, k);
    assert Marked(s, k + 1) == mk + "_" + [s[k]];
    MarkedFrom(s, k + 1, j);
    var rest := s[k + 1..j];
    assert s[k..j] == [s[k]] + rest;
    assert (mk + "_" + [s[k]]) + rest == mk + "_" + ([s[k]] + rest);
  }

  /** Lower-casing distributes over concatenation */
  lemma ToLowerAppend(a: string, b: string)
    ensures Text.ToLower(a + b) == Text.ToLower(a) + Text.ToLower(b)
  {
    var l := Text.ToLower(a + b);
    forall i | 0 <= i < |a + b| ensures l[i] == (Text.ToLower(a) + Text.ToLower(b))[i] {
      if i < |a| { assert (a + b)[i] == a[i]; } else { assert (a + b)[i] == b[i - |a|]; }
    }
  }

  predicate AllLower(s: string) {
    forall i :: 0 <= i < |s| ==> Text.IsLower(s[i])
  }

  /** Lower-casing leaves text without upper-case letters as it is */
  lemma LowerUnchanged(s: string)
    requires forall i :: 0 <= i < |s| ==> !Text.IsUpper(s[i])
    ensures Text.ToLower(s) == s
  {
  }

  /** Marking two camel-case words puts one underscore before the capital */
  lemma TwoWordsMarked(p: string, c: char, r: string)
    requires |p| > 0 && AllLower(p)
    requires Text.IsUpper(c)
    requires |r| > 0 && AllLower(r)
    ensures Marked(p + [c] + r, |p + [c] + r|) == p + "_" + ([c] + r)
  {
    var s := p + [c] + r;
    var k := |p|;
    assert BreakAt(s, k) by { assert s[k - 1] == p[k - 1] && s[k] == c && s[k + 1] == r[0]; }
    forall q | 0 <= q < |s| && q != k ensures !BreakAt(s, q) {
      if q < k { assert s[q] == p[q]; } else { assert s[q] == r[q - k - 1]; }
    }
    MarkedOneBreak(s, 0, k, |s|);
    assert s[0..k] == p && s[k..|s|] == [c] + r;
  }

  /** Two camel-case words: a lower-case word, then a capitalised lower-case word, become the two
      words joined by an underscore, all in lower case */
  lemma TwoWords(p: string, c: char, r: string)
    requires |p| > 0 && AllLower(p)
    requires Text.IsUpper(c)
    requires |r| > 0 && AllLower(r)
    ensures Snake(p + [c] + r) == p + "_" + [Text.LowerChar(c)] + r
  {
    var s := p + [c] + r;
    assert '.' !in s by {
      forall q | 0 <= q < |s| ensures s[q] != '.' {
        if q < |p| { assert s[q] == p[q]; } else if q > |p| { assert s[q] == r[q - |p| - 1]; }
      }
    }
    ReplaceAbsent(s, '.', '_');
    TwoWordsMarked(p, c, r);
    ToLowerAppend(p + "_", [c] + r);
    LowerUnchanged(p + "_");
    ToLowerAppend([c], r);
    LowerUnchanged(r);
    assert Text.ToLower([c]) == [Text.LowerChar(c)];
  }

  /** "phoneNumber" becomes "phone_number" */
  lemma PhoneNumberExample()
    ensures Snake("phoneNumber") == "phone_number"
  {
    assert "phoneNumber" == "phone" + ['N'] + "umber";
    TwoWords("phone", 'N', "umber");
  }

  /** "userID" gets no underscore, because nothing lower case follows the 'I' */
  lemma UserIdExample()
    ensures Snake("userID") == "userid"
  {
    var b := "userID";
    ReplaceAbsent(b, '.', '_');
    NoBreakWithoutUpper(b, 0, 4);
    assert !BreakAt(b, 4) by { assert !Text.IsLower(b[5]); }
    assert !BreakAt(b, 5);
    MarkedFrom(b, 0, |b|);
    assert b[0..|b|] == b;
    assert Text.ToLower(b) == "userid";
  }

  /** A dotted path becomes an underscored one */
  lemma DottedExample()
    ensures Snake("user.name") == "user_name"
  {
    var c := "user.name";
    var c' := Text.Replace(c, '.', '_');
    assert c' == "user_name";
    MarkedNoUpper(c');
    assert Text.ToLower(c') == c';
  }
}
