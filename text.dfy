/**
 * The string operations the pages use: `toLowerCase` / `toUpperCase`
 * (restricted to ASCII letters), `includes`, `trim` and the file-name part of
 * a path (`path.split('/').pop()`).
 */
module Text {
  import opened Wrappers

  function LowerChar(c: char): char {
    if 'A' <= c <= 'Z' then (c as int + 32) as char else c
  }

  function UpperChar(c: char): char {
    if 'a' <= c <= 'z' then (c as int - 32) as char else c
  }

  /** `s.toLowerCase()` on ASCII letters. */
  function Lower(s: string): (r: string)
    ensures |r| == |s|
  {
    seq(|s|, i requires 0 <= i < |s| => LowerChar(s[i]))
  }

  /** `s.toUpperCase()` on ASCII letters. */
  function Upper(s: string): (r: string)
    ensures |r| == |s|
  {
    seq(|s|, i requires 0 <= i < |s| => UpperChar(s[i]))
  }

  /** Lower-casing leaves no upper-case ASCII letter and changes nothing else. */
  lemma LowerSpec(s: string)
    ensures forall i :: 0 <= i < |s| ==> !('A' <= Lower(s)[i] <= 'Z')
    ensures forall i :: 0 <= i < |s| && !('A' <= s[i] <= 'Z') ==> Lower(s)[i] == s[i]
    ensures Lower(Lower(s)) == Lower(s)
  {
  }

  /** Upper-casing leaves no lower-case ASCII letter and changes nothing else. */
  lemma UpperSpec(s: string)
    ensures forall i :: 0 <= i < |s| ==> !('a' <= Upper(s)[i] <= 'z')
    ensures forall i :: 0 <= i < |s| && !('a' <= s[i] <= 'z') ==> Upper(s)[i] == s[i]
    ensures Upper(Upper(s)) == Upper(s)
  {
  }

  /** `needle` occurs in `hay` starting at index `i`. */
  predicate OccursAt(hay: string, needle: string, i: int) {
    0 <= i && i + |needle| <= |hay| && hay[i..i + |needle|] == needle
  }

  /** `hay.includes(needle)`. */
  function Contains(hay: string, needle: string): bool
    decreases |hay|
  {
    |needle| <= |hay| && (hay[..|needle|] == needle || Contains(hay[1..], needle))
  }

  /** `includes` holds exactly when the needle occurs somewhere in the haystack. */
  lemma {:induction false} ContainsIff(hay: string, needle: string)
    ensures Contains(hay, needle) <==> exists i :: OccursAt(hay, needle, i)
    decreases |hay|
  {
    if |needle| <= |hay| && hay[..|needle|] != needle {
      ContainsIff(hay[1..], needle);
      if exists i :: OccursAt(hay[1..], needle, i) {
        var i :| OccursAt(hay[1..], needle, i);
        assert hay[1..][i..i + |needle|] == hay[i + 1..i + 1 + |needle|];
        assert OccursAt(hay, needle, i + 1);
      }
      if exists i :: OccursAt(hay, needle, i) {
        var i :| OccursAt(hay, needle, i);
        assert i != 0;
        assert hay[1..][i - 1..i - 1 + |needle|] == hay[i..i + |needle|];
        assert OccursAt(hay[1..], needle, i - 1);
      }
    } else if |needle| <= |hay| {
      assert OccursAt(hay, needle, 0);
    }
  }

  /** Every string includes the empty string: an empty search term matches every present field. */
  lemma ContainsEmpty(hay: string)
    ensures Contains(hay, "")
  {
    assert hay[..0] == "";
  }

  /** A haystack that includes a needle includes every prefix of it. */
  lemma ContainsPrefix(hay: string, needle: string, more: string)
    ensures Contains(hay, needle + more) ==> Contains(hay, needle)
  {
    ContainsIff(hay, needle + more);
    ContainsIff(hay, needle);
    if Contains(hay, needle + more) {
      var i :| OccursAt(hay, needle + more, i);
      assert hay[i..i + |needle|] == (needle + more)[..|needle|] == needle;
      assert OccursAt(hay, needle, i);
    }
  }

  /** Lower-casing works character by character, so it distributes over concatenation. */
  lemma LowerAppend(a: string, b: string)
    ensures Lower(a + b) == Lower(a) + Lower(b)
  {
  }

  /**
   * `field?.toLowerCase().includes(term.toLowerCase())`: a missing field
   * (`null` or `undefined`) never matches.
   */
  predicate MatchesCI(field: Option<string>, term: string) {
    field.Some? && Contains(Lower(field.value), Lower(term))
  }

  /** The match does not depend on the letter case of the field or of the term. */
  lemma MatchesIgnoresCase(field: string, term: string)
    ensures MatchesCI(Some(field), term) == MatchesCI(Some(Lower(field)), term)
    ensures MatchesCI(Some(field), term) == MatchesCI(Some(field), Lower(term))
    ensures MatchesCI(Some(field), term) == MatchesCI(Some(Upper(field)), Upper(term))
  {
    LowerSpec(field);
    LowerSpec(term);
    LowerOfUpper(field);
    LowerOfUpper(term);
  }

  lemma LowerOfUpper(s: string)
    ensures Lower(Upper(s)) == Lower(s)
  {
  }

  /** The characters JavaScript's `trim` removes (WhiteSpace and LineTerminator). */
  predicate IsJsSpace(c: char) {
    || c in {' ', '\t', '\n', '\U{000B}', '\U{000C}', '\r', '\U{00A0}', '\U{1680}'}
    || ('\U{2000}' <= c <= '\U{200A}')
    || c in {'\U{2028}', '\U{2029}', '\U{202F}', '\U{205F}', '\U{3000}', '\U{FEFF}'}
  }

  /** `s.trimStart()`: the suffix of `s` after its leading white space. */
  function TrimStart(s: string): (r: string)
    ensures |r| <= |s| && r == s[|s| - |r|..]
    ensures forall i :: 0 <= i < |s| - |r| ==> IsJsSpace(s[i])
    ensures r == [] || !IsJsSpace(r[0])
    decreases |s|
  {
    if s != [] && IsJsSpace(s[0]) then TrimStart(s[1..]) else s
  }

  /** `s.trimEnd()`: the prefix of `s` before its trailing white space. */
  function TrimEnd(s: string): (r: string)
    ensures |r| <= |s| && r == s[..|r|]
    ensures forall i :: |r| <= i < |s| ==> IsJsSpace(s[i])
    ensures r == [] || !IsJsSpace(r[|r| - 1])
    decreases |s|
  {
    if s != [] && IsJsSpace(s[|s| - 1]) then TrimEnd(s[..|s| - 1]) else s
  }

  /** `s.trim()`. */
  function Trim(s: string): string {
    TrimEnd(TrimStart(s))
  }

  /** `!s.trim()`: the string is empty or white space only. */
  predicate IsBlank(s: string) {
    Trim(s) == []
  }

  /** A string trims to nothing exactly when every character of it is white space. */
  lemma BlankIff(s: string)
    ensures IsBlank(s) <==> forall i :: 0 <= i < |s| ==> IsJsSpace(s[i])
  {
  }

  /** `path.split('/').pop()`: the part of `path` after its last '/'. */
  function Basename(path: string): (name: string)
    ensures '/' !in name
    ensures |name| <= |path| && name == path[|path| - |name|..]
    ensures |name| < |path| ==> path[|path| - |name| - 1] == '/'
    decreases |path|
  {
    if path == [] || path[|path| - 1] == '/' then []
    else
      var init := path[..|path| - 1];
      assert path == init + [path[|path| - 1]];
      Basename(init) + [path[|path| - 1]]
  }

  /** The file name of `dir/name` is `name`, whatever the directory part is. */
  lemma {:induction false} BasenameOfJoin(dir: string, name: string)
    requires '/' !in name
    ensures Basename(dir + "/" + name) == name
    decreases |name|
  {
    if name == [] {
    } else {
      var init := name[..|name| - 1];
      assert '/' !in init by { assert forall c :: c in init ==> c in name; }
      BasenameOfJoin(dir, init);
      assert dir + "/" + name == (dir + "/" + init) + [name[|name| - 1]];
      assert (dir + "/" + name)[..|dir + "/" + name| - 1] == dir + "/" + init;
      assert name == init + [name[|name| - 1]];
    }
  }

  /** A path without any '/' is its own file name. */
  lemma BasenameOfPlainName(name: string)
    requires '/' !in name
    ensures Basename(name) == name
  {
  }
}
