/**
 * The href filter chain of the listing collector (sanny.go, parseHTML): a
 * candidate `href` value is kept only if it passes every test, in this order.
 */
module Classify {
  import opened Strings
  import opened FileName

  /** The parent-directory link, the empty link, the current-directory link. */
  predicate IsNavigation(href: string)
  {
    href == "../" || href == "" || href == "./"
  }

  /** An absolute or protocol-relative link, which points outside the listing. */
  predicate IsExternal(href: string)
  {
    HasPrefix(href, "http://") || HasPrefix(href, "https://") || HasPrefix(href, "//")
  }

  /** A link to a sub-directory. */
  predicate IsDirectory(href: string)
  {
    HasSuffix(href, "/")
  }

  /** Whether `href` is collected as a file entry: the tests in the order the source applies them. */
  predicate Accept(href: string)
  {
    if IsNavigation(href) then false
    else if IsExternal(href) then false
    else if IsDirectory(href) then false
    else FileNamePattern(href)
  }

  /**
   * Every test before the grammar is implied by the grammar, so a link is
   * accepted exactly when it is a word of the grammar.
   */
  lemma AcceptIsPattern(href: string)
    ensures Accept(href) <==> FileNamePattern(href)
    ensures Accept(href) ==> href != "../" && href != "" && href != "./"
    ensures Accept(href) ==> !HasPrefix(href, "http://") && !HasPrefix(href, "https://") && !HasPrefix(href, "//")
    ensures Accept(href) ==> !HasSuffix(href, "/")
  {
    PatternPassesEarlyFilters(href);
  }

  /** The early filters never reject a word of the grammar. */
  lemma PatternPassesEarlyFilters(href: string)
    ensures FileNamePattern(href) ==> !IsNavigation(href) && !IsExternal(href) && !IsDirectory(href)
  {
    if !FileNamePattern(href) {
      return;
    }
    PatternCharacters(href);
    if |href| >= 7 {
      assert href[..7][4] == href[4];
    }
    if |href| >= 8 {
      assert href[..8][5] == href[5];
    }
    assert href[..2][0] == href[0];
    assert href[|href| - 1..][0] == href[|href| - 1];
  }

  /** An accepted entry contains neither `/` nor `:`, so it names a file in the listing itself. */
  lemma AcceptedHasNoSeparator(href: string)
    requires Accept(href)
    ensures forall i :: 0 <= i < |href| ==> href[i] != '/' && href[i] != ':'
  {
    AcceptIsPattern(href);
    PatternCharacters(href);
  }
}
