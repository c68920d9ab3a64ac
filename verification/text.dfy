/** The handful of JavaScript string operations the engine relies on: truthiness,
    `toLowerCase`, `replace(' ', '-')` (first occurrence only) and `trim`. */
module Text {

  /** JavaScript truthiness of a string: only the empty string is falsy. */
  predicate Truthy(s: string) {
    |s| > 0
  }

  /** Lower-cases one character; only the ASCII letters A-Z are mapped. */
  function LowerChar(c: char): char {
    if 'A' <= c <= 'Z' then (c as int + 32) as char else c
  }

  predicate IsUpperAscii(c: char) {
    'A' <= c <= 'Z'
  }

  /** `s.toLowerCase()`, restricted to ASCII letters. */
  function ToLower(s: string): (r: string)
    ensures |r| == |s|
    ensures forall i :: 0 <= i < |s| ==> r[i] == LowerChar(s[i])
    ensures forall i :: 0 <= i < |r| ==> !IsUpperAscii(r[i])
  {
    if s == [] then [] else [LowerChar(s[0])] + ToLower(s[1..])
  }

  /** Position `i` holds the first occurrence of `c` in `s`. */
  predicate FirstOccurrence(s: string, c: char, i: nat)
    requires i < |s|
  {
    s[i] == c && forall j :: 0 <= j < i ==> s[j] != c
  }

  /** `s.replace(from, to)` with a one-character pattern: JavaScript replaces only the
      FIRST occurrence when the pattern is a string. */
  function ReplaceFirst(s: string, from: char, to: char): (r: string)
    ensures |r| == |s|
    ensures forall i :: 0 <= i < |s| ==> r[i] == (if FirstOccurrence(s, from, i) then to else s[i])
    ensures (forall i :: 0 <= i < |s| ==> s[i] != from) ==> r == s
  {
    if s == [] then []
    else if s[0] == from then [to] + s[1..]
    else
      var rest := ReplaceFirst(s[1..], from, to);
      assert forall i :: 1 <= i < |s| ==> (FirstOccurrence(s, from, i) <==> FirstOccurrence(s[1..], from, i - 1)) by {
        forall i | 1 <= i < |s| ensures FirstOccurrence(s, from, i) <==> FirstOccurrence(s[1..], from, i - 1) {
          assert forall j :: 1 <= j < i ==> s[j] == s[1..][j - 1];
        }
      }
      [s[0]] + rest
  }

  /** Exactly the first occurrence of `from` is replaced; every other position is kept. */
  lemma {:induction false} ReplaceFirstAt(s: string, from: char, to: char, k: nat)
    requires k < |s| && s[k] == from
    requires forall j :: 0 <= j < k ==> s[j] != from
    ensures ReplaceFirst(s, from, to) == s[k := to]
  {
    if k > 0 {
      ReplaceFirstAt(s[1..], from, to, k - 1);
      assert s[1..][k - 1 := to] == s[k := to][1..];
    }
  }

  /** The characters `String.prototype.trim` removes: the ECMAScript WhiteSpace and
      LineTerminator code points. */
  predicate IsJsWhitespace(c: char) {
    || c == '\t' || c == '\n' || c == '\U{000B}' || c == '\U{000C}' || c == '\r'
    || c == ' ' || c == '\U{00A0}' || c == '\U{1680}' || ('\U{2000}' <= c <= '\U{200A}')
    || c == '\U{2028}' || c == '\U{2029}' || c == '\U{202F}' || c == '\U{205F}'
    || c == '\U{3000}' || c == '\U{FEFF}'
  }

  /** Drops leading whitespace: the result is the longest suffix that starts with a
      non-whitespace character (or is empty). */
  function TrimStart(s: string): (r: string)
    ensures |r| <= |s| && r == s[|s| - |r|..]
    ensures forall k :: 0 <= k < |s| - |r| ==> IsJsWhitespace(s[k])
    ensures r == [] || !IsJsWhitespace(r[0])
  {
    if s == [] then []
    else if IsJsWhitespace(s[0]) then TrimStart(s[1..])
    else s
  }

  /** Drops trailing whitespace: the result is the longest prefix that ends with a
      non-whitespace character (or is empty). */
  function TrimEnd(s: string): (r: string)
    ensures |r| <= |s| && r == s[..|r|]
    ensures forall k :: |r| <= k < |s| ==> IsJsWhitespace(s[k])
    ensures r == [] || !IsJsWhitespace(r[|r| - 1])
  {
    if s == [] then []
    else if IsJsWhitespace(s[|s| - 1]) then TrimEnd(s[..|s| - 1])
    else s
  }

  /** `s.trim()`, which the `trim: true` schema option applies before validation. */
  function Trim(s: string): (r: string)
    ensures |r| <= |s|
    ensures r == [] || (!IsJsWhitespace(r[0]) && !IsJsWhitespace(r[|r| - 1]))
    // `r` is a slice of `s`, and everything cut off on either side is whitespace.
    ensures exists i :: TrimmedAt(s, r, i)
  {
    var t := TrimStart(s);
    var r := TrimEnd(t);
    assert TrimmedAt(s, r, |s| - |t|);
    r
  }

  /** `r` sits in `s` at offset `i`, with only whitespace before and after it. */
  predicate TrimmedAt(s: string, r: string, i: int) {
    && 0 <= i && i + |r| <= |s| && r == s[i..i + |r|]
    && (forall k :: 0 <= k < i ==> IsJsWhitespace(s[k]))
    && (forall k :: i + |r| <= k < |s| ==> IsJsWhitespace(s[k]))
  }

  /** Trimming is idempotent. */
  lemma {:induction false} TrimIdempotent(s: string)
    ensures Trim(Trim(s)) == Trim(s)
  {
    var t := Trim(s);
    TrimStartKeepsNonBlankHead(t);
    TrimEndKeepsNonBlankTail(t);
  }

  lemma TrimStartKeepsNonBlankHead(s: string)
    requires s == [] || !IsJsWhitespace(s[0])
    ensures TrimStart(s) == s
  {
  }

  lemma TrimEndKeepsNonBlankTail(s: string)
    requires s == [] || !IsJsWhitespace(s[|s| - 1])
    ensures TrimEnd(s) == s
  {
  }

  /** A string made only of whitespace trims to the empty string, so a required trimmed
      field holding only blanks fails validation. */
  lemma {:induction false} BlankTrimsToEmpty(s: string)
    requires forall k :: 0 <= k < |s| ==> IsJsWhitespace(s[k])
    ensures Trim(s) == []
  {
    if s != [] {
      BlankTrimsToEmpty(s[1..]);
    }
  }

  /** The employment-type normalisation of the offer engine,
      `employmentType.toLowerCase().replace(' ', '-')`. */
  function NormalizeEmploymentType(s: string): (r: string)
    ensures |r| == |s|
    ensures forall i :: 0 <= i < |r| ==> !IsUpperAscii(r[i])
    // The first space becomes a dash; every other character is lower-cased.
    ensures forall i :: 0 <= i < |s| ==> r[i] == (if FirstOccurrence(s, ' ', i) then '-' else LowerChar(s[i]))
  {
    var lower := ToLower(s);
    var r := ReplaceFirst(lower, ' ', '-');
    assert forall i :: 0 <= i < |s| ==> (lower[i] == ' ' <==> s[i] == ' ');
    assert forall i :: 0 <= i < |s| ==> (FirstOccurrence(lower, ' ', i) <==> FirstOccurrence(s, ' ', i));
    r
  }

  /** The label a front end sends for self-employed applicants normalises to the
      schema value "self-employed". */
  lemma NormalizeSelfEmployed()
    ensures NormalizeEmploymentType("Self Employed") == "self-employed"
  {
    LowerSelfEmployed("Self Employed");
    DashSelfEmployed("self employed");
  }

  lemma LowerSelfEmployed(text: string)
    requires text == "Self Employed"
    ensures ToLower(text) == "self employed"
  {
  }

  lemma DashSelfEmployed(lower: string)
    requires lower == "self employed"
    ensures ReplaceFirst(lower, ' ', '-') == "self-employed"
  {
    ReplaceFirstAt(lower, ' ', '-', 4);
    assert lower[4 := '-'] == "self-employed";
  }

  /** Only the first space becomes a dash: "a b c" normalises to "a-b c". */
  lemma NormalizeReplacesOnlyFirstSpace()
    ensures NormalizeEmploymentType("a b c") == "a-b c"
  {
    var lower := ToLower("a b c");
    assert lower == "a b c";
    assert lower[1] == ' ' && lower[0] != ' ';
    ReplaceFirstAt(lower, ' ', '-', 1);
  }
}
