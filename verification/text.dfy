/** The string transformations the server applies: the `trim` and
    `lowercase` schema setters, the upload path normalisation
    `path.replace(/\\/g, '/')`, and the message-notification preview. */
module Text {

  /** The characters `String.prototype.trim` removes: ECMAScript WhiteSpace
      (TAB, VT, FF, ZWNBSP and the space separators) and LineTerminator. */
  predicate IsSpace(c: char) {
    c in {'\t', '\U{B}', '\U{C}', ' ', '\U{A0}', '\U{1680}', '\U{202F}', '\U{205F}',
          '\U{3000}', '\U{FEFF}', '\n', '\r', '\U{2028}', '\U{2029}'}
    || '\U{2000}' <= c <= '\U{200A}'
  }

  predicate AllSpace(s: string) {
    forall i | 0 <= i < |s| :: IsSpace(s[i])
  }

  /** True when `s` neither starts nor ends with a space. */
  predicate Trimmed(s: string) {
    s == [] || (!IsSpace(s[0]) && !IsSpace(s[|s| - 1]))
  }

  /** The index of the first character at or after `k` that is not a space,
      or `|s|` when there is none. */
  function SkipLeading(s: string, k: nat): (n: nat)
    requires k <= |s|
    ensures k <= n <= |s|
    ensures forall i | k <= i < n :: IsSpace(s[i])
    ensures n == |s| || !IsSpace(s[n])
    decreases |s| - k
  {
    if k < |s| && IsSpace(s[k]) then SkipLeading(s, k + 1) else k
  }

  /** The index just past the last character of `s[lo..k]` that is not a
      space, or `lo` when there is none. */
  function SkipTrailing(s: string, lo: nat, k: nat): (n: nat)
    requires lo <= k <= |s|
    ensures lo <= n <= k
    ensures forall i | n <= i < k :: IsSpace(s[i])
    ensures n == lo || !IsSpace(s[n - 1])
  {
    if lo < k && IsSpace(s[k - 1]) then SkipTrailing(s, lo, k - 1) else k
  }

  /** The `trim: true` setter: the infix of `s` left once the leading and
      the trailing spaces are dropped. */
  function Trim(s: string): (r: string)
    ensures Trimmed(r)
    ensures exists i, j | 0 <= i <= j <= |s| :: r == s[i..j] && AllSpace(s[..i]) && AllSpace(s[j..])
  {
    var i := SkipLeading(s, 0);
    var j := SkipTrailing(s, i, |s|);
    Margins(s, i, j);
    s[i..j]
  }

  /** The infix between the two skips is trimmed and its margins are spaces. */
  lemma Margins(s: string, i: nat, j: nat)
    requires i == SkipLeading(s, 0) && j == SkipTrailing(s, i, |s|)
    ensures AllSpace(s[..i]) && AllSpace(s[j..]) && Trimmed(s[i..j])
  {
    forall k | 0 <= k < i
      ensures IsSpace(s[..i][k])
    {
      assert s[..i][k] == s[k];
    }
    forall k | 0 <= k < |s| - j
      ensures IsSpace(s[j..][k])
    {
      assert s[j..][k] == s[j + k];
    }
    if i < j {
      assert s[i..j][0] == s[i];
      assert s[i..j][j - i - 1] == s[j - 1];
    }
  }

  /** The trim is the only trimmed infix whose margins are spaces only. */
  lemma TrimUnique(s: string, i: nat, j: nat)
    requires i <= j <= |s|
    requires AllSpace(s[..i]) && AllSpace(s[j..]) && Trimmed(s[i..j])
    ensures Trim(s) == s[i..j]
  {
    var r := Trim(s);
    var i', j' :| 0 <= i' <= j' <= |s| && r == s[i'..j'] && AllSpace(s[..i']) && AllSpace(s[j'..]);
    assert Trimmed(s[i'..j']);
    InfixUnique(s, i, j, i', j');
  }

  /** Two trimmed infixes of `s` with space-only margins are equal. */
  lemma InfixUnique(s: string, i: nat, j: nat, i': nat, j': nat)
    requires i <= j <= |s| && AllSpace(s[..i]) && AllSpace(s[j..]) && Trimmed(s[i..j])
    requires i' <= j' <= |s| && AllSpace(s[..i']) && AllSpace(s[j'..]) && Trimmed(s[i'..j'])
    ensures s[i..j] == s[i'..j']
  {
    if i < j {
      NoSpaceAt(s, i, j, i', j');
    }
    if i' < j' {
      NoSpaceAt(s, i', j', i, j);
    }
  }

  /** A non-empty trimmed infix with space-only margins starts and ends
      inside every other such infix. */
  lemma NoSpaceAt(s: string, i: nat, j: nat, i': nat, j': nat)
    requires i < j <= |s| && Trimmed(s[i..j])
    requires i' <= j' <= |s| && AllSpace(s[..i']) && AllSpace(s[j'..])
    ensures i' <= i && j <= j'
  {
    assert !IsSpace(s[i]) by {
      assert s[i] == s[i..j][0];
    }
    assert !IsSpace(s[j - 1]) by {
      assert s[j - 1] == s[i..j][j - 1 - i];
    }
  }

  /** A trimmed string is its own trim, so trimming is idempotent. */
  lemma TrimOfTrimmed(s: string)
    requires Trimmed(s)
    ensures Trim(s) == s
  {
    assert s[0..|s|] == s;
    TrimUnique(s, 0, |s|);
  }

  lemma TrimIdempotent(s: string)
    ensures Trim(Trim(s)) == Trim(s)
  {
    TrimOfTrimmed(Trim(s));
  }

  /** A value trims to the empty string exactly when it consists of spaces
      only; this is when a `required` string field becomes empty. */
  lemma TrimEmptyIffAllSpace(s: string)
    ensures Trim(s) == [] <==> AllSpace(s)
  {
    var i, j :| 0 <= i <= j <= |s| && Trim(s) == s[i..j] && AllSpace(s[..i]) && AllSpace(s[j..]);
    if Trim(s) == [] {
      forall k | 0 <= k < |s|
        ensures IsSpace(s[k])
      {
        if k < i {
          assert s[k] == s[..i][k];
        } else {
          assert s[k] == s[j..][k - j];
        }
      }
    }
    if AllSpace(s) {
      assert s[..|s|] == s;
      TrimUnique(s, |s|, |s|);
    }
  }

  predicate IsUpperAscii(c: char) {
    'A' <= c <= 'Z'
  }

  function LowerChar(c: char): (r: char)
    ensures !IsUpperAscii(r)
    ensures IsSpace(r) <==> IsSpace(c)
  {
    if IsUpperAscii(c) then (c as int + 32) as char else c
  }

  /** The `lowercase: true` setter, restricted to ASCII letters. */
  function LowerAscii(s: string): (r: string)
    ensures |r| == |s| && NoUpper(r)
    ensures forall i | 0 <= i < |s| && !IsUpperAscii(s[i]) :: r[i] == s[i]
    ensures forall i | 0 <= i < |s| :: r[i] == LowerChar(s[i])
  {
    seq(|s|, i requires 0 <= i < |s| => LowerChar(s[i]))
  }

  /** Lower-casing leaves no upper-case ASCII letter and is idempotent. */
  lemma LowerAsciiIdempotent(s: string)
    ensures forall i | 0 <= i < |s| :: !IsUpperAscii(LowerAscii(s)[i])
    ensures LowerAscii(LowerAscii(s)) == LowerAscii(s)
  {
  }

  /** Trimming and lower-casing commute, so the order in which the two
      setters of User.email run does not matter. */
  lemma TrimLowerCommute(s: string)
    ensures Trim(LowerAscii(s)) == LowerAscii(Trim(s))
  {
    var t := Trim(s);
    var i, j :| 0 <= i <= j <= |s| && t == s[i..j] && AllSpace(s[..i]) && AllSpace(s[j..]);
    LowerMargins(s, i, j);
    TrimUnique(LowerAscii(s), i, j);
    LowerCut(s, i, j);
  }

  /** Lower-casing keeps space-only margins and a trimmed middle. */
  lemma LowerMargins(s: string, i: nat, j: nat)
    requires i <= j <= |s| && AllSpace(s[..i]) && AllSpace(s[j..]) && Trimmed(s[i..j])
    ensures var l := LowerAscii(s);
      AllSpace(l[..i]) && AllSpace(l[j..]) && Trimmed(l[i..j])
  {
    var l := LowerAscii(s);
    forall k | 0 <= k < i
      ensures IsSpace(l[..i][k])
    {
      assert l[..i][k] == LowerChar(s[..i][k]);
    }
    forall k | 0 <= k < |s| - j
      ensures IsSpace(l[j..][k])
    {
      assert l[j..][k] == LowerChar(s[j..][k]);
    }
    if i < j {
      assert l[i..j][0] == LowerChar(s[i..j][0]);
      assert l[i..j][j - i - 1] == LowerChar(s[i..j][j - i - 1]);
    }
  }

  /** Lower-casing works character by character, so it commutes with
      cutting `s` at `i` and `j`. */
  lemma LowerCut(s: string, i: nat, j: nat)
    requires i <= j <= |s|
    ensures LowerAscii(s)[i..j] == LowerAscii(s[i..j])
  {
  }

  /** The stored form of an e-mail address: trimmed, then lower-cased. */
  function NormaliseEmail(raw: string): (r: string)
    ensures Trimmed(r) && NoUpper(r)
    ensures |r| == |Trim(raw)| && forall i | 0 <= i < |r| :: r[i] == LowerChar(Trim(raw)[i])
  {
    TrimLowerCommute(raw);
    LowerAsciiIdempotent(Trim(raw));
    LowerAscii(Trim(raw))
  }

  /** No upper-case ASCII letter occurs in `s`. */
  predicate NoUpper(s: string) {
    forall i | 0 <= i < |s| :: !IsUpperAscii(s[i])
  }

  /** Lower-casing a string without upper-case letters changes nothing. */
  lemma LowerAsciiNoop(s: string)
    requires NoUpper(s)
    ensures LowerAscii(s) == s
  {
    var r := LowerAscii(s);
    assert forall i | 0 <= i < |s| :: r[i] == s[i];
  }

  /** The strings trimming leaves alone are exactly the trimmed ones. */
  lemma TrimFixedIffTrimmed(s: string)
    ensures Trim(s) == s <==> Trimmed(s)
  {
    if Trimmed(s) {
      TrimOfTrimmed(s);
    }
  }

  /** The addresses normalisation leaves alone are exactly the trimmed ones
      without upper-case letters. */
  lemma NormaliseEmailFixedIff(s: string)
    ensures NormaliseEmail(s) == s <==> Trimmed(s) && NoUpper(s)
  {
    if Trimmed(s) && NoUpper(s) {
      TrimOfTrimmed(s);
      LowerAsciiNoop(s);
    }
  }

  /** Normalising an address twice is the same as normalising it once. */
  lemma NormaliseEmailIdempotent(raw: string)
    ensures NormaliseEmail(NormaliseEmail(raw)) == NormaliseEmail(raw)
  {
    var n := NormaliseEmail(raw);
    TrimOfTrimmed(n);
    LowerAsciiIdempotent(Trim(raw));
  }

  /** `path.replace(/\\/g, '/')`: every backslash becomes a forward slash and
      every other character is kept in place. */
  function SlashPath(p: string): (r: string)
    ensures |r| == |p|
    ensures '\\' !in r
    ensures forall i | 0 <= i < |p| :: r[i] == (if p[i] == '\\' then '/' else p[i])
  {
    if p == [] then []
    else [if p[0] == '\\' then '/' else p[0]] + SlashPath(p[1..])
  }

  /** A path without backslashes is left as it is; hence normalising twice
      equals normalising once. */
  lemma SlashPathNoop(p: string)
    requires '\\' !in p
    ensures SlashPath(p) == p
  {
  }

  lemma SlashPathIdempotent(p: string)
    ensures SlashPath(SlashPath(p)) == SlashPath(p)
  {
    SlashPathNoop(SlashPath(p));
  }

  /** Characters of a message shown in its notification. */
  const PreviewLength := 50

  /** `content.substring(0, 50)` followed by `'...'` when the content is
      longer than 50 characters. */
  function Preview(content: string): (r: string)
    ensures |content| <= PreviewLength ==> r == content
    ensures |content| > PreviewLength ==>
      |r| == PreviewLength + 3 && r[..PreviewLength] == content[..PreviewLength]
      && r[PreviewLength..] == "..."
  {
    if |content| > PreviewLength then content[..PreviewLength] + "..."
    else content
  }
}
