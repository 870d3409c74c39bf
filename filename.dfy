/**
 * The file-name grammar of the listing classifier: the anchored regular
 * expression `^[\w\-\.]+\.[a-zA-Z0-9]{1,10}$`, matched with Go's RE2 engine.
 *
 * In RE2 `\w` is ASCII only (`[0-9A-Za-z_]`), and without the `m` flag `$`
 * matches only at the very end of the text. `FileNamePattern` states what the
 * expression matches (some split into name, dot and extension); `LastDotForm`
 * describes the same words through their last dot, and the two are proved to agree.
 */
module FileName {

  /** RE2's `\w`. */
  predicate IsWordChar(c: char)
  {
    'a' <= c <= 'z' || 'A' <= c <= 'Z' || '0' <= c <= '9' || c == '_'
  }

  /** The class `[\w\-\.]`. */
  predicate IsNameChar(c: char)
  {
    IsWordChar(c) || c == '-' || c == '.'
  }

  /** The class `[a-zA-Z0-9]`. */
  predicate IsAlnum(c: char)
  {
    'a' <= c <= 'z' || 'A' <= c <= 'Z' || '0' <= c <= '9'
  }

  predicate AllNameChars(s: string)
  {
    forall i :: 0 <= i < |s| ==> IsNameChar(s[i])
  }

  predicate AllAlnum(s: string)
  {
    forall i :: 0 <= i < |s| ==> IsAlnum(s[i])
  }

  /** The longest extension the grammar admits (`{1,10}`). */
  const MaxExtension := 10

  /**
   * What the anchored expression accepts: `s` splits at some dot `s[k]` into a
   * non-empty run of name characters before it and 1 to 10 alphanumerics after it.
   */
  predicate FileNamePattern(s: string)
  {
    exists k :: 1 <= k < |s| && s[k] == '.' && AllNameChars(s[..k])
      && 1 <= |s| - k - 1 <= MaxExtension && AllAlnum(s[k + 1..])
  }

  /**
   * The same language described through the last dot: every character is a
   * name character, the last dot has at least one character before it, and
   * what follows the last dot is 1 to 10 alphanumerics.
   */
  ghost predicate LastDotForm(s: string)
  {
    AllNameChars(s) &&
    exists k :: 1 <= k < |s| && s[k] == '.' && (forall j :: k < j < |s| ==> s[j] != '.')
      && 1 <= |s| - k - 1 <= MaxExtension && AllAlnum(s[k + 1..])
  }

  /** Two characterisations of the grammar coincide. */
  lemma PatternIffLastDot(s: string)
    ensures FileNamePattern(s) <==> LastDotForm(s)
  {
    if FileNamePattern(s) {
      var k :| 1 <= k < |s| && s[k] == '.' && AllNameChars(s[..k])
        && 1 <= |s| - k - 1 <= MaxExtension && AllAlnum(s[k + 1..]);
      forall i | 0 <= i < |s| ensures IsNameChar(s[i]) {
        if i < k {
          assert s[i] == s[..k][i];
        } else if i > k {
          assert s[i] == s[k + 1..][i - k - 1];
        }
      }
      forall j | k < j < |s| ensures s[j] != '.' {
        assert s[j] == s[k + 1..][j - k - 1];
      }
    }
    if LastDotForm(s) {
      var k :| 1 <= k < |s| && s[k] == '.' && (forall j :: k < j < |s| ==> s[j] != '.')
        && 1 <= |s| - k - 1 <= MaxExtension && AllAlnum(s[k + 1..]);
      assert AllNameChars(s[..k]) by {
        forall i | 0 <= i < k ensures IsNameChar(s[..k][i]) {
          assert s[..k][i] == s[i];
        }
      }
    }
  }

  /** A word of the grammar has no separator `/`, no `:`, and at least three characters. */
  lemma PatternCharacters(s: string)
    requires FileNamePattern(s)
    ensures |s| >= 3
    ensures forall i :: 0 <= i < |s| ==> s[i] != '/' && s[i] != ':'
  {
    PatternIffLastDot(s);
  }

  /** A character outside `[\w\-\.]` rules a string out. */
  lemma RejectsNonNameChar(s: string, i: nat)
    requires i < |s| && !IsNameChar(s[i])
    ensures !FileNamePattern(s)
  {
    PatternIffLastDot(s);
  }

  /** A last dot at the start, or followed by no or more than ten characters, rules a string out. */
  lemma RejectsByLastDot(s: string, k: nat)
    requires k < |s| && s[k] == '.' && forall j :: k < j < |s| ==> s[j] != '.'
    requires k == 0 || |s| - k - 1 == 0 || |s| - k - 1 > MaxExtension
    ensures !FileNamePattern(s)
  {
    PatternIffLastDot(s);
    forall k' | 0 <= k' < |s| && s[k'] == '.' && (forall j :: k' < j < |s| ==> s[j] != '.')
      ensures k' == k
    {
    }
  }
}
