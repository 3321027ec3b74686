/**
 * models.py: `normalize_entity_id`, which cleans an entity id read from the
 * add-on's configuration. It strips whitespace, removes one pair of
 * matching surrounding quotes, and treats empty and disabling words as "no
 * entity".
 */
module Models {
  import opened Optional

  /** Python's `str.isspace` for one character: the characters `str.strip()` removes. */
  predicate IsSpace(c: char)
  {
    var n := c as int;
    (0x09 <= n <= 0x0D) || (0x1C <= n <= 0x20) || n == 0x85 || n == 0xA0 || n == 0x1680 ||
    (0x2000 <= n <= 0x200A) || n == 0x2028 || n == 0x2029 || n == 0x202F || n == 0x205F || n == 0x3000
  }

  predicate AllSpace(s: string)
  {
    forall i :: 0 <= i < |s| ==> IsSpace(s[i])
  }

  /** Neither end of `s` is whitespace. */
  predicate NoOuterSpace(s: string)
  {
    s == [] || (!IsSpace(s[0]) && !IsSpace(s[|s| - 1]))
  }

  /** The first index from `i` on that is not whitespace, or `|s|`. */
  function SkipSpace(s: string, i: nat): (j: nat)
    requires i <= |s|
    ensures i <= j <= |s|
    ensures forall k :: i <= k < j ==> IsSpace(s[k])
    ensures j < |s| ==> !IsSpace(s[j])
    decreases |s| - i
  {
    if i < |s| && IsSpace(s[i]) then SkipSpace(s, i + 1) else i
  }

  /** Going down from `j` to `lo`, the end of the last character that is not whitespace, or `lo`. */
  function SkipSpaceBack(s: string, lo: nat, j: nat): (k: nat)
    requires lo <= j <= |s|
    ensures lo <= k <= j
    ensures forall m :: k <= m < j ==> IsSpace(s[m])
    ensures k > lo ==> !IsSpace(s[k - 1])
    decreases j
  {
    if j > lo && IsSpace(s[j - 1]) then SkipSpaceBack(s, lo, j - 1) else j
  }

  /** Where the result of `strip` starts in its input. */
  function StripStart(s: string): (a: nat)
    ensures a <= |s|
  {
    SkipSpace(s, 0)
  }

  /** Where the result of `strip` ends in its input. */
  function StripEnd(s: string): (b: nat)
    ensures StripStart(s) <= b <= |s|
  {
    SkipSpaceBack(s, StripStart(s), |s|)
  }

  /** `s.strip()`: the text between the leading and the trailing whitespace. */
  function Strip(s: string): (r: string)
    ensures NoOuterSpace(r) && |r| <= |s|
  {
    s[StripStart(s)..StripEnd(s)]
  }

  /** `s[0] == s[-1]` is `"` or `'`, for a string of at least two characters. */
  predicate Quoted(s: string)
  {
    |s| >= 2 && ((s[0] == '"' && s[|s| - 1] == '"') || (s[0] == '\'' && s[|s| - 1] == '\''))
  }

  /** `str.lower()` on ASCII letters; every other character is kept. */
  function Lower(s: string): (r: string)
    ensures |r| == |s|
    ensures forall i :: 0 <= i < |s| ==> r[i] == (if 'A' <= s[i] <= 'Z' then (s[i] as int + 32) as char else s[i])
  {
    seq(|s|, i requires 0 <= i < |s| => if 'A' <= s[i] <= 'Z' then (s[i] as int + 32) as char else s[i])
  }

  /** `s.lower() in {"none", "null", "disabled"}`. */
  predicate IsDisabledToken(s: string)
  {
    Lower(s) in {"none", "null", "disabled"}
  }

  /** Lowering leaves no ASCII capital behind. */
  lemma LowerNoCapitals(s: string)
    ensures forall i :: 0 <= i < |s| ==> !('A' <= Lower(s)[i] <= 'Z')
  {
  }

  /** Lowering twice is lowering once. */
  lemma LowerIdempotent(s: string)
    ensures Lower(Lower(s)) == Lower(s)
  {
    LowerNoCapitals(s);
  }

  /** The disabling test ignores case: a string and its lowered form are disabling alike. */
  lemma TokenCaseless(s: string)
    ensures IsDisabledToken(Lower(s)) <==> IsDisabledToken(s)
  {
    LowerIdempotent(s);
  }

  /** `normalize_entity_id(s)`. */
  function NormalizeEntityId(s: Option<string>): (r: Option<string>)
    ensures s.None? ==> r.None?
    ensures r.Some? ==> r.value != "" && !IsDisabledToken(r.value) && NoOuterSpace(r.value)
  {
    match s
    case None => None
    case Some(raw) =>
      var u := Unquote(Strip(raw));
      if u == "" || IsDisabledToken(u) then None else Some(u)
  }

  /** The quote removal: `s[1:-1].strip()` when `s` is quoted, `s` otherwise. */
  function Unquote(s: string): string
  {
    if Quoted(s) then Strip(s[1..|s| - 1]) else s
  }

  // ------------------------------------------------------------------ lemmas

  /** From `i`, whitespace up to a non-space character at `n` (or the end) is all that is skipped. */
  lemma {:induction false} SkipSpaceOver(s: string, i: nat, n: nat)
    requires i <= n <= |s|
    requires forall k :: i <= k < n ==> IsSpace(s[k])
    requires n < |s| ==> !IsSpace(s[n])
    ensures SkipSpace(s, i) == n
    decreases n - i
  {
    if i < n {
      SkipSpaceOver(s, i + 1, n);
    }
  }

  /** Down from `j`, whitespace back to a non-space character before `n` (or to `lo`) is all that is skipped. */
  lemma {:induction false} SkipSpaceBackOver(s: string, lo: nat, j: nat, n: nat)
    requires lo <= n <= j <= |s|
    requires forall m :: n <= m < j ==> IsSpace(s[m])
    requires n > lo ==> !IsSpace(s[n - 1])
    ensures SkipSpaceBack(s, lo, j) == n
    decreases j
  {
    if n < j {
      SkipSpaceBackOver(s, lo, j - 1, n);
    }
  }

  /** `strip` returns exactly the text between the outer whitespace. */
  lemma StripUnique(w1: string, t: string, w2: string)
    requires AllSpace(w1) && AllSpace(w2) && NoOuterSpace(t)
    ensures Strip(w1 + t + w2) == t
  {
    var s := w1 + t + w2;
    if t == [] {
      assert forall k :: 0 <= k < |s| ==> IsSpace(s[k]) by {
        forall k | 0 <= k < |s| ensures IsSpace(s[k]) {
          if k < |w1| { assert s[k] == w1[k]; } else { assert s[k] == w2[k - |w1|]; }
        }
      }
      SkipSpaceOver(s, 0, |s|);
    } else {
      var a, b := |w1|, |w1| + |t|;
      assert s[a] == t[0] && s[b - 1] == t[|t| - 1];
      assert forall k :: 0 <= k < a ==> s[k] == w1[k];
      assert forall m :: b <= m < |s| ==> s[m] == w2[m - b];
      SkipSpaceOver(s, 0, a);
      SkipSpaceBackOver(s, a, |s|, b);
      assert s[a..b] == t;
    }
  }

  /** Stripping twice is stripping once. */
  lemma StripIdempotent(s: string)
    ensures Strip(Strip(s)) == Strip(s)
  {
    StripUnique([], Strip(s), []);
    assert [] + Strip(s) + [] == Strip(s);
  }

  /** A whitespace-only string, the empty one included, is no entity. */
  lemma BlankIsDisabled(s: string)
    requires AllSpace(s)
    ensures NormalizeEntityId(Some(s)).None?
  {
    StripUnique(s, [], []);
    assert s + [] + [] == s;
  }

  /** A disabling word keeps its letters when lowered, so it has no outer whitespace. */
  lemma DisabledTokenNoSpace(t: string)
    requires IsDisabledToken(t)
    ensures NoOuterSpace(t) && t != [] && !Quoted(t)
  {
    var l := Lower(t);
    assert |l| > 0 && l[0] != '"' && l[0] != '\'';
    assert !IsSpace(l[0]) && !IsSpace(l[|l| - 1]);
  }

  /** `none`, `null` and `disabled`, in any case and with any outer whitespace, are no entity. */
  lemma DisabledTokenIsNone(w1: string, t: string, w2: string)
    requires AllSpace(w1) && AllSpace(w2) && IsDisabledToken(t)
    ensures NormalizeEntityId(Some(w1 + t + w2)).None?
  {
    DisabledTokenNoSpace(t);
    StripUnique(w1, t, w2);
  }

  /** A plain entity id surrounded by whitespace comes back without it. */
  lemma PlainIdKept(w1: string, id: string, w2: string)
    requires AllSpace(w1) && AllSpace(w2) && NoOuterSpace(id)
    requires id != "" && !IsDisabledToken(id) && !Quoted(id)
    ensures NormalizeEntityId(Some(w1 + id + w2)) == Some(id)
  {
    StripUnique(w1, id, w2);
  }

  /** The characters between a pair of quotes. */
  lemma Between(q: char, x: string)
    ensures ([q] + x + [q])[1..|x| + 1] == x
    ensures |[q] + x + [q]| == |x| + 2 && ([q] + x + [q])[0] == q && ([q] + x + [q])[|x| + 1] == q
  {
  }

  /** A quoted string loses its quotes and the whitespace inside them. */
  lemma UnquoteQuoted(q: char, w2: string, t: string, w3: string)
    requires q == '"' || q == '\''
    requires AllSpace(w2) && AllSpace(w3) && NoOuterSpace(t)
    ensures Unquote([q] + (w2 + t + w3) + [q]) == t
  {
    Between(q, w2 + t + w3);
    StripUnique(w2, t, w3);
  }

  /** One pair of matching quotes around an id is removed, with the whitespace on both sides of each quote. */
  lemma QuotedIdUnquoted(q: char, w1: string, w2: string, id: string, w3: string, w4: string)
    requires q == '"' || q == '\''
    requires AllSpace(w1) && AllSpace(w2) && AllSpace(w3) && AllSpace(w4) && NoOuterSpace(id)
    requires id != "" && !IsDisabledToken(id)
    ensures NormalizeEntityId(Some(w1 + ([q] + (w2 + id + w3) + [q]) + w4)) == Some(id)
  {
    var quoted := [q] + (w2 + id + w3) + [q];
    StripUnique(w1, quoted, w4);
    UnquoteQuoted(q, w2, id, w3);
  }

  /** Only one pair is removed: an id inside two pairs of quotes keeps the inner pair. */
  lemma OnePairOnly(outer: char, inner: char, id: string)
    requires (outer == '"' || outer == '\'') && (inner == '"' || inner == '\'')
    ensures NormalizeEntityId(Some([outer] + ([inner] + id + [inner]) + [outer])) == Some([inner] + id + [inner])
  {
    var kept := [inner] + id + [inner];
    Between(inner, id);
    NotALetterNotAToken(kept);
    assert [] + kept + [] == kept;
    QuotedIdUnquoted(outer, [], [], kept, [], []);
    assert [] + ([outer] + ([] + kept + []) + [outer]) + [] == [outer] + kept + [outer];
  }

  /** A string that does not start with a letter is not a disabling word. */
  lemma NotALetterNotAToken(s: string)
    requires s != [] && !('A' <= s[0] <= 'Z') && !('a' <= s[0] <= 'z')
    ensures !IsDisabledToken(s)
  {
    assert Lower(s)[0] == s[0];
  }

  /** A lone quote character is too short to be a pair and is kept. */
  lemma LoneQuoteKept(q: char)
    requires q == '"' || q == '\''
    ensures NormalizeEntityId(Some([q])) == Some([q])
  {
    StripUnique([], [q], []);
    assert [] + [q] + [] == [q];
    NotALetterNotAToken([q]);
  }

  /** Quotes around nothing but whitespace leave nothing: no entity. */
  lemma EmptyQuotesAreNone(q: char, w: string)
    requires q == '"' || q == '\''
    requires AllSpace(w)
    ensures NormalizeEntityId(Some([q] + w + [q])).None?
  {
    var quoted := [q] + (w + [] + []) + [q];
    assert w + [] + [] == w;
    StripUnique([], quoted, []);
    assert [] + quoted + [] == quoted;
    UnquoteQuoted(q, w, [], []);
  }

  /** Where the result of `Unquote` starts in its input. */
  function UnquoteStart(t: string): nat
  {
    if Quoted(t) then 1 + StripStart(t[1..|t| - 1]) else 0
  }

  /** `Unquote` returns a piece of its input. */
  lemma UnquoteSplits(t: string)
    ensures UnquoteStart(t) + |Unquote(t)| <= |t|
    ensures Unquote(t) == t[UnquoteStart(t)..UnquoteStart(t) + |Unquote(t)|]
  {
    if Quoted(t) {
      var inner := t[1..|t| - 1];
      PieceOfPiece(t, inner, Strip(inner), 1, StripStart(inner));
    }
  }

  /** Where the stripped, unquoted text starts in the raw input. */
  function CleanStart(s: string): nat
  {
    StripStart(s) + UnquoteStart(Strip(s))
  }

  /** The stripped, unquoted text is the piece of the input that starts at `CleanStart`. */
  lemma CleanedIsPiece(s: string)
    ensures CleanStart(s) + |Unquote(Strip(s))| <= |s|
    ensures Unquote(Strip(s)) == s[CleanStart(s)..CleanStart(s) + |Unquote(Strip(s))|]
  {
    UnquoteSplits(Strip(s));
    PieceOfPiece(s, Strip(s), Unquote(Strip(s)), StripStart(s), UnquoteStart(Strip(s)));
  }

  /** The result is a piece of the input, starting at `CleanStart`: normalisation only removes characters from the ends. */
  lemma NormalizedIsSlice(s: string)
    ensures NormalizeEntityId(Some(s)).Some? ==>
      (CleanStart(s) + |NormalizeEntityId(Some(s)).value| <= |s| &&
       NormalizeEntityId(Some(s)).value == s[CleanStart(s)..CleanStart(s) + |NormalizeEntityId(Some(s)).value|])
  {
    CleanedIsPiece(s);
  }

  /** A piece of a piece of `s` is a piece of `s`. */
  lemma PieceOfPiece(s: string, t: string, u: string, a: nat, c: nat)
    requires a + |t| <= |s| && t == s[a..a + |t|]
    requires c + |u| <= |t| && u == t[c..c + |u|]
    ensures a + c + |u| <= |s| && u == s[a + c..a + c + |u|]
  {
    assert forall i :: 0 <= i < |u| ==> u[i] == s[a + c + i];
  }
}
