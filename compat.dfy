/** Counting the entries of a compatibility list such as
    "John Deere 7R/8R, Case IH Magnum": the Python expression
    `len([m.strip() for m in s.replace("/", ",").split(",") if m.strip()])`. */
module Compat {

  /** Python's `str.isspace()` for one character: the characters `strip()`
      removes when called without arguments. */
  predicate IsSpace(c: char)
  {
    c == ' ' || ('\t' <= c <= '\r') || ('\U{1c}' <= c <= '\U{1f}')
    || c == '\U{85}' || c == '\U{a0}' || c == '\U{1680}'
    || ('\U{2000}' <= c <= '\U{200a}') || c == '\U{2028}' || c == '\U{2029}'
    || c == '\U{202f}' || c == '\U{205f}' || c == '\U{3000}'
  }

  predicate IsSeparator(c: char)
  {
    c == ',' || c == '/'
  }

  /** Some character of `s` is not whitespace. */
  predicate NonBlank(s: string)
  {
    exists i :: 0 <= i < |s| && !IsSpace(s[i])
  }

  /** `s.replace("/", ",")`. */
  function ReplaceSlash(s: string): (r: string)
    ensures |r| == |s|
    ensures forall i :: 0 <= i < |s| ==> r[i] != '/' && (IsSeparator(s[i]) <==> r[i] == ',')
    ensures forall i :: 0 <= i < |s| && !IsSeparator(s[i]) ==> r[i] == s[i]
  {
    seq(|s|, i requires 0 <= i < |s| => if s[i] == '/' then ',' else s[i])
  }

  /** `s.split(",")`: the maximal comma-free pieces, always at least one. */
  function Split(s: string): (pieces: seq<string>)
    ensures |pieces| >= 1
    ensures forall k :: 0 <= k < |pieces| ==> ',' !in pieces[k]
  {
    if s == [] then [[]]
    else if s[0] == ',' then [[]] + Split(s[1..])
    else
      var rest := Split(s[1..]);
      [[s[0]] + rest[0]] + rest[1..]
  }

  /** `",".join(pieces)`. */
  function Join(pieces: seq<string>): string
    requires |pieces| >= 1
  {
    if |pieces| == 1 then pieces[0] else pieces[0] + [','] + Join(pieces[1..])
  }

  /** `s.lstrip()`. */
  function StripLeft(s: string): (r: string)
    ensures |r| <= |s| && r == s[|s| - |r|..]
    ensures r == [] || !IsSpace(r[0])
    ensures forall i :: 0 <= i < |s| - |r| ==> IsSpace(s[i])
  {
    if s != [] && IsSpace(s[0]) then StripLeft(s[1..]) else s
  }

  /** `s.rstrip()`. */
  function StripRight(s: string): (r: string)
    ensures |r| <= |s| && r == s[..|r|]
    ensures r == [] || !IsSpace(r[|r| - 1])
    ensures forall i :: |r| <= i < |s| ==> IsSpace(s[i])
  {
    if s != [] && IsSpace(s[|s| - 1]) then StripRight(s[..|s| - 1]) else s
  }

  /** `s.strip()`. */
  function Strip(s: string): string
  {
    StripRight(StripLeft(s))
  }

  /** `[m.strip() for m in pieces if m.strip()]`. */
  function KeepStripped(pieces: seq<string>): (entries: seq<string>)
    ensures |entries| <= |pieces|
    ensures forall k :: 0 <= k < |entries| ==> entries[k] != []
  {
    if pieces == [] then []
    else
      var m := Strip(pieces[0]);
      (if m != [] then [m] else []) + KeepStripped(pieces[1..])
  }

  /** The entries a compatibility string lists, in order. */
  function Entries(s: string): seq<string>
  {
    KeepStripped(Split(ReplaceSlash(s)))
  }

  /** `count_compatible_brands` / `count_compatible_models`. */
  function CountEntries(s: string): nat
  {
    |Entries(s)|
  }

  /** Splitting and joining on the comma are inverse: nothing is lost. */
  lemma {:induction false} JoinSplit(s: string)
    ensures Join(Split(s)) == s
  {
    if s == [] {
    } else if s[0] == ',' {
      JoinSplit(s[1..]);
      assert s == [','] + s[1..];
    } else {
      JoinSplit(s[1..]);
      var rest := Split(s[1..]);
      if |rest| == 1 {
        assert s == [s[0]] + rest[0];
      } else {
        assert Join(rest) == rest[0] + [','] + Join(rest[1..]);
        assert s == [s[0]] + s[1..];
      }
    }
  }

  /** A comma splits the string into the pieces on either side of it. */
  lemma {:induction false} SplitConcat(a: string, b: string)
    ensures Split(a + [','] + b) == Split(a) + Split(b)
  {
    if a == [] {
      assert a + [','] + b == [','] + b;
    } else {
      assert (a + [','] + b)[1..] == a[1..] + [','] + b;
      SplitConcat(a[1..], b);
    }
  }

  /** A string without commas is a single piece. */
  lemma {:induction false} SplitNoComma(s: string)
    requires ',' !in s
    ensures Split(s) == [s]
  {
    if s != [] {
      SplitNoComma(s[1..]);
      assert s == [s[0]] + s[1..];
    }
  }

  /** `m.strip()` is empty exactly when `m` is all whitespace. */
  lemma StripEmpty(m: string)
    ensures Strip(m) == [] <==> !NonBlank(m)
  {
    var l := StripLeft(m);
    if Strip(m) == [] {
      assert l == [];
    } else {
      var r := Strip(m);
      assert !IsSpace(r[0]);
      assert r[0] == l[0] == m[|m| - |l|];
    }
  }

  /** The entries are exactly the stripped non-blank pieces, and there are
      none exactly when every piece is blank. */
  lemma KeepStrippedEntries(pieces: seq<string>)
    ensures forall x :: x in KeepStripped(pieces) <==>
      exists j :: 0 <= j < |pieces| && NonBlank(pieces[j]) && x == Strip(pieces[j])
    ensures KeepStripped(pieces) == [] <==> forall j :: 0 <= j < |pieces| ==> !NonBlank(pieces[j])
  {
    forall x | x in KeepStripped(pieces)
      ensures exists j :: 0 <= j < |pieces| && NonBlank(pieces[j]) && x == Strip(pieces[j])
    {
      KeepStrippedSound(pieces, x);
    }
    forall j | 0 <= j < |pieces| && NonBlank(pieces[j])
      ensures Strip(pieces[j]) in KeepStripped(pieces)
    {
      KeepStrippedComplete(pieces, j);
    }
    if KeepStripped(pieces) != [] {
      assert KeepStripped(pieces)[0] in KeepStripped(pieces);
    }
  }

  /** Every entry is the stripped form of a non-blank piece. */
  lemma {:induction false} KeepStrippedSound(pieces: seq<string>, x: string)
    requires x in KeepStripped(pieces)
    ensures exists j :: 0 <= j < |pieces| && NonBlank(pieces[j]) && x == Strip(pieces[j])
  {
    var m, rest := Strip(pieces[0]), pieces[1..];
    StripEmpty(pieces[0]);
    assert KeepStripped(pieces) == (if m != [] then [m] else []) + KeepStripped(rest);
    if m != [] && x == m {
      assert NonBlank(pieces[0]) && x == Strip(pieces[0]);
    } else {
      KeepStrippedSound(rest, x);
      var j :| 0 <= j < |rest| && NonBlank(rest[j]) && x == Strip(rest[j]);
      assert rest[j] == pieces[j + 1];
    }
  }

  /** Every non-blank piece yields an entry. */
  lemma {:induction false} KeepStrippedComplete(pieces: seq<string>, j: nat)
    requires j < |pieces| && NonBlank(pieces[j])
    ensures Strip(pieces[j]) in KeepStripped(pieces)
  {
    var m, rest := Strip(pieces[0]), pieces[1..];
    assert KeepStripped(pieces) == (if m != [] then [m] else []) + KeepStripped(rest);
    if j == 0 {
      StripEmpty(pieces[0]);
    } else {
      assert pieces[j] == rest[j - 1];
      KeepStrippedComplete(rest, j - 1);
    }
  }

  lemma {:induction false} KeepStrippedConcat(a: seq<string>, b: seq<string>)
    ensures KeepStripped(a + b) == KeepStripped(a) + KeepStripped(b)
  {
    if a != [] {
      assert (a + b)[1..] == a[1..] + b;
      KeepStrippedConcat(a[1..], b);
    } else {
      assert a + b == b;
    }
  }

  /** Either separator ends an entry: counting is additive across one. */
  lemma CountConcat(a: string, c: char, b: string)
    requires IsSeparator(c)
    ensures CountEntries(a + [c] + b) == CountEntries(a) + CountEntries(b)
  {
    assert ReplaceSlash(a + [c] + b) == ReplaceSlash(a) + [','] + ReplaceSlash(b);
    SplitConcat(ReplaceSlash(a), ReplaceSlash(b));
    KeepStrippedConcat(Split(ReplaceSlash(a)), Split(ReplaceSlash(b)));
  }

  /** A separator-free string is one entry, or none when it is blank. */
  lemma CountSegment(s: string)
    requires forall i :: 0 <= i < |s| ==> !IsSeparator(s[i])
    ensures CountEntries(s) == if NonBlank(s) then 1 else 0
  {
    assert ReplaceSlash(s) == s;
    SplitNoComma(s);
    StripEmpty(s);
  }

  /** Nothing but separators and whitespace. */
  predicate NoEntry(s: string)
  {
    forall i :: 0 <= i < |s| ==> IsSeparator(s[i]) || IsSpace(s[i])
  }

  lemma NoEntryConcat(a: string, c: char, b: string)
    requires IsSeparator(c)
    ensures NoEntry(a + [c] + b) <==> NoEntry(a) && NoEntry(b)
  {
    var s := a + [c] + b;
    if NoEntry(s) {
      forall i | 0 <= i < |a| ensures IsSeparator(a[i]) || IsSpace(a[i]) {
        assert a[i] == s[i];
      }
      forall i | 0 <= i < |b| ensures IsSeparator(b[i]) || IsSpace(b[i]) {
        assert b[i] == s[|a| + 1 + i];
      }
    }
  }

  /** The count is 0 exactly when the string holds nothing but separators
      and whitespace (the empty string included). */
  lemma {:induction false} CountZeroIff(s: string)
    ensures CountEntries(s) == 0 <==> NoEntry(s)
    decreases |s|
  {
    if j :| 0 <= j < |s| && IsSeparator(s[j]) {
      var a, b := s[..j], s[j + 1..];
      assert s == a + [s[j]] + b;
      CountConcat(a, s[j], b);
      NoEntryConcat(a, s[j], b);
      CountZeroIff(a);
      CountZeroIff(b);
    } else {
      CountSegment(s);
    }
  }
}
