/** Character-level operations the SQL text builders rely on: upper-casing
    (`ToUpper` with the en-US culture, here restricted to ASCII letters),
    `Replace("@", "")`, `string.IsNullOrWhiteSpace` and substring containment. */
module Text {
  import opened Results

  /** True when `t` occurs in `s` starting at position `i`. */
  predicate OccursAt(s: string, t: string, i: int) {
    0 <= i <= |s| - |t| && s[i..i + |t|] == t
  }

  /** True when `t` occurs in `s` as a contiguous substring. */
  predicate Contains(s: string, t: string) {
    exists i | 0 <= i <= |s| - |t| :: OccursAt(s, t, i)
  }

  /** `t` occurs in any string that is built around it. */
  lemma ContainsMiddle(a: string, t: string, b: string)
    ensures Contains(a + t + b, t)
  {
    var s := a + t + b;
    assert s[|a|..|a| + |t|] == t;
    assert OccursAt(s, t, |a|);
  }

  /** Containment is transitive. */
  lemma ContainsTransitive(s: string, t: string, u: string)
    requires Contains(s, t) && Contains(t, u)
    ensures Contains(s, u)
  {
    var i :| 0 <= i <= |s| - |t| && OccursAt(s, t, i);
    var j :| 0 <= j <= |t| - |u| && OccursAt(t, u, j);
    assert forall k :: 0 <= k < |u| ==> s[i + j + k] == t[j + k] == u[k];
    assert OccursAt(s, u, i + j);
  }

  /** True when `s` ends with `t`. */
  predicate EndsWith(s: string, t: string) {
    |t| <= |s| && s[|s| - |t|..] == t
  }

  lemma EndsWithAppend(a: string, t: string)
    ensures EndsWith(a + t, t)
  {
    assert (a + t)[|a|..] == t;
  }

  /** Putting text in front keeps the ending. */
  lemma EndsWithTail(a: string, b: string, t: string)
    requires EndsWith(b, t)
    ensures EndsWith(a + b, t)
  {
    assert (a + b)[|a + b| - |t|..] == b[|b| - |t|..];
  }

  /** Text in the same place between the same surroundings is the same. */
  lemma MiddleDetermined(a: string, x: string, y: string, b: string)
    requires a + x + b == a + y + b
    ensures x == y
  {
    assert |x| == |y|;
    assert (a + x + b)[|a|..|a| + |x|] == x;
    assert (a + y + b)[|a|..|a| + |y|] == y;
  }

  // ---------------------------------------------------------------------
  // Texts built from fragments

  /** The fragments of `parts`, concatenated in order (`string.Concat`). */
  function Join(parts: seq<string>): string {
    if parts == [] then "" else parts[0] + Join(parts[1..])
  }

  lemma {:induction false} JoinAppend(a: seq<string>, b: seq<string>)
    ensures Join(a + b) == Join(a) + Join(b)
  {
    if a == [] {
      assert a + b == b;
    } else {
      assert (a + b)[0] == a[0] && (a + b)[1..] == a[1..] + b;
      JoinAppend(a[1..], b);
    }
  }

  /** The fragments from `i` on are fragment `i` followed by those after it. */
  lemma JoinFrom(parts: seq<string>, i: nat)
    requires i < |parts|
    ensures Join(parts[i..]) == parts[i] + Join(parts[i + 1..])
  {
    assert parts[i..][1..] == parts[i + 1..];
  }

  /** The joined text is what comes before fragment `i`, the fragment, and
      what comes after it. */
  lemma JoinAround(parts: seq<string>, i: nat)
    requires i < |parts|
    ensures Join(parts) == Join(parts[..i]) + parts[i] + Join(parts[i + 1..])
  {
    assert parts[..i] + parts[i..] == parts;
    JoinAppend(parts[..i], parts[i..]);
    JoinFrom(parts, i);
  }

  lemma ContainsRight(a: string, b: string, t: string)
    requires Contains(b, t)
    ensures Contains(a + b, t)
  {
    var i :| 0 <= i <= |b| - |t| && OccursAt(b, t, i);
    assert (a + b)[|a| + i..|a| + i + |t|] == b[i..i + |t|];
    assert OccursAt(a + b, t, |a| + i);
  }

  lemma ContainsSuffix(a: string, b: string)
    ensures Contains(a + b, b)
  {
    assert (a + b)[|a|..] == b;
    assert OccursAt(a + b, b, |a|);
  }

  lemma ContainsPrefix(a: string, b: string)
    ensures Contains(a + b, a)
  {
    assert (a + b)[..|a|] == a;
    assert OccursAt(a + b, a, 0);
  }

  /** Whatever occurs in the fragments from `i` on occurs in the whole text. */
  lemma ContainsInSuffix(parts: seq<string>, i: nat, t: string)
    requires i <= |parts| && Contains(Join(parts[i..]), t)
    ensures Contains(Join(parts), t)
  {
    assert parts[..i] + parts[i..] == parts;
    JoinAppend(parts[..i], parts[i..]);
    ContainsRight(Join(parts[..i]), Join(parts[i..]), t);
  }

  /** Any one fragment occurs in the joined text. */
  lemma ContainsFragment(parts: seq<string>, i: nat)
    requires i < |parts|
    ensures Contains(Join(parts), parts[i])
  {
    JoinFrom(parts, i);
    ContainsPrefix(parts[i], Join(parts[i + 1..]));
    ContainsInSuffix(parts, i, parts[i]);
  }

  /** Any two consecutive fragments occur together in the joined text. */
  lemma ContainsTwoFragments(parts: seq<string>, i: nat)
    requires i + 2 <= |parts|
    ensures Contains(Join(parts), parts[i] + parts[i + 1])
  {
    var a, b, rest := parts[i], parts[i + 1], Join(parts[i + 2..]);
    JoinFrom(parts, i);
    JoinFrom(parts, i + 1);
    assert a + (b + rest) == (a + b) + rest;
    ContainsPrefix(a + b, rest);
    ContainsInSuffix(parts, i, a + b);
  }

  /** Any three consecutive fragments occur together in the joined text. */
  lemma ContainsThreeFragments(parts: seq<string>, i: nat)
    requires i + 3 <= |parts|
    ensures Contains(Join(parts), parts[i] + parts[i + 1] + parts[i + 2])
  {
    var a, b, c, rest := parts[i], parts[i + 1], parts[i + 2], Join(parts[i + 3..]);
    JoinFrom(parts, i);
    JoinFrom(parts, i + 1);
    JoinFrom(parts, i + 2);
    assert a + (b + (c + rest)) == (a + b + c) + rest;
    ContainsPrefix(a + b + c, rest);
    ContainsInSuffix(parts, i, a + b + c);
  }

  lemma JoinTwo(a: string, b: string)
    ensures Join([a, b]) == a + b
  {
    assert [a, b][1..] == [b] && [b][1..] == [];
    assert Join([b]) == b;
  }

  lemma JoinThree(a: string, b: string, c: string)
    ensures Join([a, b, c]) == a + b + c
  {
    assert [a, b, c][1..] == [b, c] && [b, c][1..] == [c] && [c][1..] == [];
    assert Join([c]) == c;
    assert Join([b, c]) == b + c;
    assert a + (b + c) == a + b + c;
  }

  // ---------------------------------------------------------------------
  // Upper-casing

  predicate IsLowerAscii(c: char) { 'a' <= c <= 'z' }

  function UpperChar(c: char): (u: char)
    ensures !IsLowerAscii(u)
    ensures IsLowerAscii(c) ==> u as int == c as int - 32
    ensures !IsLowerAscii(c) ==> u == c
  {
    if IsLowerAscii(c) then (c as int - 32) as char else c
  }

  /** The upper-cased string: same length, every character upper-cased
      on its own, and no lower-case ASCII letter left. */
  function Upper(s: string): (r: string)
    ensures |r| == |s|
    ensures forall i :: 0 <= i < |s| ==> r[i] == UpperChar(s[i])
    ensures forall i :: 0 <= i < |r| ==> !IsLowerAscii(r[i])
  {
    if s == [] then [] else [UpperChar(s[0])] + Upper(s[1..])
  }

  /** Upper-casing never introduces nor removes an '@'. */
  lemma UpperKeepsAt(s: string)
    ensures '@' in Upper(s) <==> '@' in s
  {
    if '@' in s {
      var i :| 0 <= i < |s| && s[i] == '@';
      assert Upper(s)[i] == '@';
    }
    if '@' in Upper(s) {
      var i :| 0 <= i < |s| && Upper(s)[i] == '@';
      assert s[i] == '@';
    }
  }

  // ---------------------------------------------------------------------
  // Replace("@", "")

  /** `s` with every '@' removed: no '@' is left, every other character is
      kept, as often as it occurs in `s`, and a text without '@' is left as
      it is. `RemoveAtAppend` adds that the kept characters stay in order. */
  function RemoveAt(s: string): (r: string)
    ensures '@' !in r
    ensures multiset(r) == multiset(s)['@' := 0]
    ensures '@' !in s ==> r == s
  {
    if s == [] then []
    else
      assert s == [s[0]] + s[1..];
      (if s[0] == '@' then [] else [s[0]]) + RemoveAt(s[1..])
  }

  /** Removing '@' works piece by piece, so the characters that are kept
      stay in their order. */
  lemma {:induction false} RemoveAtAppend(a: string, b: string)
    ensures RemoveAt(a + b) == RemoveAt(a) + RemoveAt(b)
  {
    if a == [] {
      assert a + b == b;
    } else {
      assert (a + b)[1..] == a[1..] + b;
      RemoveAtAppend(a[1..], b);
      RemoveAtStep(a, b, RemoveAt(a[1..]), RemoveAt(b));
    }
  }

  /** One step of `RemoveAtAppend`: the first character of `a` is kept or
      dropped alike in `a + b` and in `a`. */
  lemma RemoveAtStep(a: string, b: string, ra: string, rb: string)
    requires a != [] && (a + b)[1..] == a[1..] + b
    requires RemoveAt(a[1..] + b) == ra + rb && RemoveAt(a[1..]) == ra
    ensures RemoveAt(a + b) == RemoveAt(a) + rb
  {
    assert (a + b)[0] == a[0];
    var head := if a[0] == '@' then [] else [a[0]];
    assert head + (ra + rb) == (head + ra) + rb;
  }

  // ---------------------------------------------------------------------
  // Lengths in UTF-16 code units, as .NET and `nvarchar` count them.

  /** The number of UTF-16 code units of `s`: one per character of the
      Basic Multilingual Plane, two (a surrogate pair) for any other. */
  function Utf16Length(s: string): (n: nat)
    ensures |s| <= n <= 2 * |s|
  {
    if s == [] then 0 else (if s[0] <= '\U{FFFF}' then 1 else 2) + Utf16Length(s[1..])
  }

  /** One character is one code unit in the Basic Multilingual Plane and
      two above it; with `Utf16LengthAppend` this fixes every length. */
  lemma Utf16LengthOfChar(c: char)
    ensures Utf16Length([c]) == if c as int <= 0xFFFF then 1 else 2
  {
    assert [c][1..] == [];
  }

  lemma {:induction false} Utf16LengthAppend(a: string, b: string)
    ensures Utf16Length(a + b) == Utf16Length(a) + Utf16Length(b)
  {
    if a == [] {
      assert a + b == b;
    } else {
      assert (a + b)[0] == a[0] && (a + b)[1..] == a[1..] + b;
      Utf16LengthAppend(a[1..], b);
    }
  }

  /** `s` without its trailing blanks. */
  function TrimTrailingSpaces(s: string): (r: string)
    ensures |r| <= |s| && r == s[..|r|]
    ensures forall i :: |r| <= i < |s| ==> s[i] == ' '
    ensures r == [] || r[|r| - 1] != ' '
  {
    if s != [] && s[|s| - 1] == ' ' then TrimTrailingSpaces(s[..|s| - 1]) else s
  }

  /** A run of blanks is one code unit per blank. */
  lemma {:induction false} Utf16LengthOfSpaces(s: string)
    requires forall i :: 0 <= i < |s| ==> s[i] == ' '
    ensures Utf16Length(s) == |s|
  {
    if s != [] {
      Utf16LengthOfSpaces(s[1..]);
    }
  }

  // ---------------------------------------------------------------------
  // string.IsNullOrWhiteSpace

  /** `char.IsWhiteSpace`: the Unicode space, line and paragraph separators,
      the control characters U+0009..U+000D, and U+0085. */
  predicate IsWhiteSpace(c: char) {
    c == ' ' || ('\t' <= c <= '\r') || c == '\U{0085}' || c == '\U{00A0}' || c == '\U{1680}'
    || ('\U{2000}' <= c <= '\U{200A}') || c == '\U{2028}' || c == '\U{2029}'
    || c == '\U{202F}' || c == '\U{205F}' || c == '\U{3000}'
  }

  /** True for null, for the empty string, and for a string of white space only. */
  predicate IsNullOrWhiteSpace(s: Option<string>) {
    match s
    case None => true
    case Some(v) => forall i :: 0 <= i < |v| ==> IsWhiteSpace(v[i])
  }

  /** The characters `char.IsWhiteSpace` accepts include the ASCII blank,
      tab, line feed, vertical tab, form feed and carriage return, the
      no-break space and the ideographic space; letters, digits, the
      zero-width space and the byte-order mark are not white space. */
  lemma WhiteSpaceCharacters()
    ensures forall c :: '\t' <= c <= '\r' ==> IsWhiteSpace(c)
    ensures IsWhiteSpace(' ') && IsWhiteSpace('\U{00A0}') && IsWhiteSpace('\U{3000}')
    ensures forall c :: ('a' <= c <= 'z' || 'A' <= c <= 'Z' || '0' <= c <= '9') ==> !IsWhiteSpace(c)
    ensures !IsWhiteSpace('\U{200B}') && !IsWhiteSpace('\U{FEFF}') && !IsWhiteSpace('\0')
  {
  }

  /** Null and the empty string count as blank; a string is blank exactly
      when each of its parts is, so one non-white character anywhere makes
      it non-blank. */
  lemma NullOrWhiteSpaceStrings(a: string, b: string)
    ensures IsNullOrWhiteSpace(None) && IsNullOrWhiteSpace(Some(""))
    ensures IsNullOrWhiteSpace(Some(a + b)) <==> IsNullOrWhiteSpace(Some(a)) && IsNullOrWhiteSpace(Some(b))
  {
    if IsNullOrWhiteSpace(Some(a)) && IsNullOrWhiteSpace(Some(b)) {
      assert forall i :: 0 <= i < |a + b| ==> (a + b)[i] == if i < |a| then a[i] else b[i - |a|];
    }
    if IsNullOrWhiteSpace(Some(a + b)) {
      assert forall i :: 0 <= i < |a| ==> a[i] == (a + b)[i];
      assert forall i :: 0 <= i < |b| ==> b[i] == (a + b)[|a| + i];
    }
  }
}
