/** Tag lists as JSON array text, and what a LIKE pattern finds in it. */
module TagText {
  // ----- LIKE -----

  /** The LIKE predicate: `%` matches any run, `_` any one character. */
  predicate Like(p: string, t: string)
    decreases |p| + |t|
  {
    if p == "" then t == ""
    else if p[0] == '%' then Like(p[1..], t) || (t != "" && Like(p, t[1..]))
    else t != "" && (p[0] == '_' || p[0] == t[0]) && Like(p[1..], t[1..])
  }

  predicate NoWildcard(s: string) { '%' !in s && '_' !in s }

  /** `s` begins at position `k` of `t`. */
  predicate At(s: string, t: string, k: int) {
    0 <= k <= |t| - |s| && t[k..k + |s|] == s
  }

  /** `s` occurs in `t`. */
  ghost predicate Occurs(s: string, t: string) { exists k :: At(s, t, k) }

  ghost predicate EndsIn(s: string, t: string) { At(s, t, |t| - |s|) }

  lemma {:induction false} LikeAny(t: string)
    ensures Like("%", t)
  {
    if t != "" { LikeAny(t[1..]); } else { assert Like("", ""); }
  }

  /** `s%` asks for a prefix. */
  lemma {:induction false} LikePrefix(s: string, t: string)
    requires NoWildcard(s)
    ensures Like(s + "%", t) <==> s <= t
  {
    if s == "" {
      assert s + "%" == "%";
      LikeAny(t);
    } else {
      assert (s + "%")[1..] == s[1..] + "%";
      if t != "" {
        LikePrefix(s[1..], t[1..]);
        assert s <= t <==> s[0] == t[0] && s[1..] <= t[1..];
      }
    }
  }

  /** `%s%` asks for an occurrence. */
  lemma {:induction false} LikeOccurs(s: string, t: string)
    requires NoWildcard(s)
    ensures Like("%" + s + "%", t) <==> Occurs(s, t)
  {
    var p := "%" + s + "%";
    assert p[1..] == s + "%";
    LikePrefix(s, t);
    if s <= t { assert At(s, t, 0); }
    if t != "" {
      LikeOccurs(s, t[1..]);
      OccursCons(s, t);
    } else {
      assert Occurs(s, t) ==> s == "";
    }
  }

  lemma OccursCons(s: string, t: string)
    requires t != ""
    ensures Occurs(s, t) <==> s <= t || Occurs(s, t[1..])
  {
    AtZero(s, t);
    if k :| At(s, t, k) {
      if k > 0 { AtShift(s, t, 1, k - 1); }
    }
    if k :| At(s, t[1..], k) {
      AtShift(s, t, 1, k);
      assert At(s, t, k + 1);
    }
  }

  lemma AtZero(s: string, t: string)
    ensures At(s, t, 0) <==> s <= t
  {}

  lemma AtShift(s: string, t: string, n: nat, k: nat)
    requires n <= |t|
    ensures At(s, t, n + k) <==> At(s, t[n..], k)
  {
    if n + k + |s| <= |t| {
      assert t[n + k..n + k + |s|] == t[n..][k..k + |s|];
    }
  }

  lemma AtInPrefix(s: string, t: string, n: nat, k: nat)
    requires n <= |t| && k + |s| <= n
    ensures At(s, t, k) <==> At(s, t[..n], k)
  {
    assert t[k..k + |s|] == t[..n][k..k + |s|];
  }

  // ----- a text before and after its first quote -----

  predicate Quoteless(s: string) { '"' !in s }

  function Cut(c: string, r: string): string { c + "\"" + r }

  /** Characters of an occurrence, of the part before the quote, and of a quoteless string. */
  lemma CharAt(s: string, t: string, k: int, c: string, r: string, j: int)
    ensures At(s, t, k) && k <= j < k + |s| ==> t[j] == s[j - k]
    ensures 0 <= j < |c| ==> Cut(c, r)[j] == c[j]
    ensures Quoteless(s) && k <= j < k + |s| ==> s[j - k] != '"'
    ensures Quoteless(c) && 0 <= j < |c| ==> c[j] != '"'
  {
    if At(s, t, k) && k <= j < k + |s| { assert t[k..k + |s|][j - k] == t[j]; }
  }

  /** A quoteless string begins the text when it begins the part before the quote. */
  lemma PrefixOfCut(s: string, c: string, r: string)
    requires Quoteless(s)
    ensures s <= Cut(c, r) <==> s <= c
  {
    var t := Cut(c, r);
    assert t[..|c|] == c && t[|c|] == '"';
    AtZero(s, t);
    CharAt(s, t, 0, c, r, |c|);
    assert s <= t && |s| <= |c| ==> s == c[..|s|];
  }

  /** `s"` begins the text when `s` is all of the part before the quote. */
  lemma ClosedPrefixOfCut(s: string, c: string, r: string)
    requires Quoteless(s) && Quoteless(c)
    ensures s + "\"" <= Cut(c, r) <==> s == c
  {
    var t, p := Cut(c, r), s + "\"";
    PrefixOfCut(s, c, r);
    assert t[..|c| + 1] == c + "\"";
    assert p <= t ==> s <= t && t[|s|] == p[|s|] == '"';
    assert |s| < |c| ==> t[|s|] == c[|s|] != '"';
  }

  /** `"s` starts at the first quote or later. */
  lemma OpenedInCut(s: string, c: string, r: string)
    requires Quoteless(c)
    ensures Occurs("\"" + s, Cut(c, r)) <==> s <= r || Occurs("\"" + s, r)
  {
    var t, p := Cut(c, r), "\"" + s;
    if k :| At(p, t, k) { OpenedFound(s, c, r, k); }
    AfterCut(s, c, r);
    AtShift(p, t, |c|, 0);
    AtZero(p, t[|c|..]);
    if k :| At(p, r, k) { AtShift(p, t, |c| + 1, k); }
  }

  lemma AfterCut(s: string, c: string, r: string)
    ensures var t := Cut(c, r); |c| < |t| && t[|c| + 1..] == r && t[|c|..] == "\"" + r
    ensures "\"" + s <= Cut(c, r)[|c|..] <==> s <= r
  {
    var p, u := "\"" + s, "\"" + r;
    assert Cut(c, r)[|c|..] == u;
    if p <= u { assert s == p[1..] <= u[1..] == r; }
  }

  lemma OpenedFound(s: string, c: string, r: string, k: int)
    requires Quoteless(c) && At("\"" + s, Cut(c, r), k)
    ensures s <= r || Occurs("\"" + s, r)
  {
    var t, p := Cut(c, r), "\"" + s;
    AfterCut(s, c, r);
    AtZero(p, t[|c|..]);
    assert t[k] == t[k..k + |p|][0] == '"';
    CharAt(p, t, k, c, r, k);
    if k > |c| { AtShift(p, t, |c| + 1, k - |c| - 1); } else { AtShift(p, t, |c|, 0); }
  }

  lemma ClosedFound(s: string, c: string, r: string, k: int)
    requires Quoteless(s) && Quoteless(c) && At(s + "\"", Cut(c, r), k)
    ensures if k + |s| == |c| then At(s, c, k) else At(s + "\"", r, k - |c| - 1)
  {
    var t, p := Cut(c, r), s + "\"";
    assert t[|c| + 1..] == r && t[..|c|] == c;
    CharAt(p, t, k, c, r, k + |s|);
    assert t[k..k + |s|] == t[k..k + |p|][..|s|] == s;
    CharAt(s, t, k, c, r, |c|);
    assert k + |s| == |c| || k > |c|;
    if k + |s| == |c| { AtInPrefix(s, t, |c|, k); } else { AtShift(p, t, |c| + 1, k - |c| - 1); }
  }

  lemma ClosedAtCut(s: string, c: string, r: string)
    requires EndsIn(s, c)
    ensures At(s + "\"", Cut(c, r), |c| - |s|)
  {
    var t, k := Cut(c, r), |c| - |s|;
    assert t[..|c|] == c;
    AtInPrefix(s, t, |c|, k);
    assert t[k..k + |s| + 1] == t[k..k + |s|] + [t[|c|]];
  }

  /** `s"` ends at the first quote or later; later means wholly after it. */
  lemma ClosedInCut(s: string, c: string, r: string)
    requires Quoteless(s) && Quoteless(c)
    ensures Occurs(s + "\"", Cut(c, r)) <==> EndsIn(s, c) || Occurs(s + "\"", r)
  {
    hide At, Cut;
    var t, p := Cut(c, r), s + "\"";
    assert |t| == |c| + 1 + |r| && t[|c| + 1..] == r by { CutLength(c, r); }
    if k :| At(p, t, k) {
      ClosedFound(s, c, r, k);
    }
    if EndsIn(s, c) { ClosedAtCut(s, c, r); }
    if k :| At(p, r, k) { AtBound(p, r, k); AtShift(p, t, |c| + 1, k); }
  }

  lemma CutLength(c: string, r: string)
    ensures |Cut(c, r)| == |c| + 1 + |r| && Cut(c, r)[|c| + 1..] == r
  {}

  lemma AtBound(s: string, t: string, k: int)
    ensures At(s, t, k) ==> 0 <= k
  {}

  /** A quoteless string occurs wholly before or wholly after a quote. */
  lemma QuotelessInCut(s: string, c: string, r: string)
    requires Quoteless(s)
    ensures Occurs(s, Cut(c, r)) <==> Occurs(s, c) || Occurs(s, r)
  {
    var t := Cut(c, r);
    assert t[|c| + 1..] == r && t[..|c|] == c;
    if k :| At(s, t, k) {
      CharAt(s, t, k, c, r, |c|);
      if k + |s| <= |c| { AtInPrefix(s, t, |c|, k); } else { AtShift(s, t, |c| + 1, k - |c| - 1); }
    }
    if k :| At(s, c, k) { AtInPrefix(s, t, |c|, k); }
    if k :| At(s, r, k) { AtShift(s, t, |c| + 1, k); }
  }

  // ----- JSON array text -----

  const HEX := "0123456789abcdef"

  /** A character inside a JSON string: quote, backslash and control characters are escaped. */
  function EscapeChar(c: char): string {
    if c == '"' then "\\\""
    else if c == '\\' then "\\\\"
    else if c < ' ' then "\\u00" + [HEX[c as int / 16], HEX[c as int % 16]]
    else [c]
  }

  function Escape(s: string): string {
    if s == "" then "" else EscapeChar(s[0]) + Escape(s[1..])
  }

  function Elements(tags: seq<string>, sep: string): string {
    if tags == [] then ""
    else "\"" + Escape(tags[0]) + "\"" + (if |tags| == 1 then "" else sep + Elements(tags[1..], sep))
  }

  /** The text of a JSON array of strings; `sep` is "," in SQLite and ", " in MySQL and PostgreSQL. */
  function ArrayText(tags: seq<string>, sep: string): string { "[" + Elements(tags, sep) + "]" }

  /** Text that needs no escape. */
  predicate PlainChar(c: char) { c != '"' && c != '\\' && c >= ' ' }

  predicate Plain(s: string) { forall i | 0 <= i < |s| :: PlainChar(s[i]) }

  ghost predicate AllPlain(tags: seq<string>) { forall t <- tags :: Plain(t) }

  lemma {:induction false} EscapePlain(s: string)
    requires Plain(s)
    ensures Escape(s) == s && Quoteless(s)
  {
    if s != "" {
      assert PlainChar(s[0]);
      EscapePlain(s[1..]);
      assert s == [s[0]] + s[1..];
    }
  }

  /** The array text after its first quote. */
  function Tail(tags: seq<string>, sep: string): string
    requires tags != []
  {
    Cut(tags[0], if |tags| == 1 then "]" else Cut(sep, Tail(tags[1..], sep)))
  }

  lemma {:induction false} ElementsAreTail(tags: seq<string>, sep: string)
    requires tags != [] && AllPlain(tags)
    ensures Elements(tags, sep) + "]" == "\"" + Tail(tags, sep)
  {
    hide Escape;
    var t := tags[0];
    EscapePlain(t);
    if |tags| == 1 {
      assert Elements(tags, sep) == "\"" + t + "\"" + "";
      assert ("\"" + t + "\"" + "") + "]" == "\"" + Cut(t, "]");
    } else {
      ElementsAreTail(tags[1..], sep);
      AfterSeparator(t, sep, Elements(tags[1..], sep), Tail(tags[1..], sep));
    }
  }

  lemma AfterSeparator(t: string, sep: string, rest: string, tail: string)
    requires rest + "]" == "\"" + tail
    ensures ("\"" + t + "\"" + (sep + rest)) + "]" == "\"" + Cut(t, Cut(sep, tail))
  {
    assert ("\"" + t + "\"" + (sep + rest)) + "]" == "\"" + t + "\"" + sep + (rest + "]");
    assert "\"" + Cut(t, Cut(sep, tail)) == "\"" + t + "\"" + sep + ("\"" + tail);
  }

  lemma ArrayTextIsCut(tags: seq<string>, sep: string)
    requires tags != [] && AllPlain(tags)
    ensures ArrayText(tags, sep) == Cut("[", Tail(tags, sep))
  {
    hide Elements, Tail;
    ElementsAreTail(tags, sep);
    var e := Elements(tags, sep);
    assert "[" + e + "]" == "[" + (e + "]");
  }

  predicate Separator(sep: string) { sep == "," || sep == ", " }

  ghost predicate SomeExtends(s: string, tags: seq<string>) { exists t <- tags :: s <= t }
  ghost predicate SomeEndsIn(s: string, tags: seq<string>) { exists t <- tags :: EndsIn(s, t) }
  ghost predicate SomeOccurs(s: string, tags: seq<string>) { exists t <- tags :: Occurs(s, t) }

  /** Search text that is not itself array punctuation, for each of the four tests. */
  ghost predicate ExactOk(s: string, sep: string) { s != sep }
  ghost predicate PrefixOk(s: string, sep: string) { s == "" || !(s <= sep || s <= "]") }
  ghost predicate SuffixOk(s: string, sep: string) { s == "" || !(EndsIn(s, "[") || EndsIn(s, sep)) }
  ghost predicate InnerOk(s: string, sep: string) { s == "" || !(Occurs(s, "[") || Occurs(s, sep) || Occurs(s, "]")) }

  lemma NoQuoteIn(s: string, t: string)
    requires Quoteless(t)
    ensures !Occurs("\"" + s, t) && !Occurs(s + "\"", t)
  {
    forall k ensures !At("\"" + s, t, k) && !At(s + "\"", t, k) {
      CharAt("\"" + s, t, k, t, "", k);
      CharAt(s + "\"", t, k, t, "", k + |s|);
    }
  }

  ghost predicate SearchOk(s: string, tags: seq<string>, sep: string) {
    Quoteless(s) && Separator(sep) && tags != [] && AllPlain(tags)
  }

  lemma {:induction false} OpenedInTail(s: string, tags: seq<string>, sep: string)
    requires SearchOk(s, tags, sep) && PrefixOk(s, sep)
    ensures s <= Tail(tags, sep) || Occurs("\"" + s, Tail(tags, sep)) <==> SomeExtends(s, tags)
  {
    hide Cut, Occurs, SomeExtends;
    var t := tags[0];
    EscapePlain(t);
    SomeExtendsSplit(s, tags);
    if |tags| == 1 {
      NoQuoteIn(s, "]");
      PrefixOfCut(s, t, "]");
      OpenedInCut(s, t, "]");
      assert tags[1..] == [];
      NoneExtends(s);
    } else {
      var tail := Tail(tags[1..], sep);
      PrefixOfCut(s, t, Cut(sep, tail));
      OpenedInCut(s, t, Cut(sep, tail));
      PrefixOfCut(s, sep, tail);
      OpenedInCut(s, sep, tail);
      OpenedInTail(s, tags[1..], sep);
    }
  }

  lemma NoneExtends(s: string)
    ensures !SomeExtends(s, [])
  {}

  lemma SomeExtendsSplit(s: string, tags: seq<string>)
    requires tags != []
    ensures SomeExtends(s, tags) <==> s <= tags[0] || SomeExtends(s, tags[1..])
  {
    if t :| t in tags && s <= t { assert t == tags[0] || t in tags[1..]; }
    if t :| t in tags[1..] && s <= t { assert t in tags; }
    if s <= tags[0] { assert tags[0] in tags; }
  }

  lemma PrefixOccurs(s: string, t: string)
    ensures s <= t ==> Occurs(s, t)
  {
    AtZero(s, t);
  }

  lemma {:induction false} EnclosedInTail(s: string, tags: seq<string>, sep: string)
    requires SearchOk(s, tags, sep) && ExactOk(s, sep)
    ensures s + "\"" <= Tail(tags, sep) || Occurs("\"" + (s + "\""), Tail(tags, sep)) <==> s in tags
  {
    hide Cut, Occurs;
    var t, p := tags[0], s + "\"";
    EscapePlain(t);
    NoQuoteIn(p, "]");
    if |tags| == 1 {
      ClosedPrefixOfCut(s, t, "]");
      OpenedInCut(p, t, "]");
      NoQuoteIn(s, "]");
      PrefixOccurs(p, "]");
    } else {
      var tail := Tail(tags[1..], sep);
      ClosedPrefixOfCut(s, t, Cut(sep, tail));
      OpenedInCut(p, t, Cut(sep, tail));
      ClosedPrefixOfCut(s, sep, tail);
      OpenedInCut(p, sep, tail);
      EnclosedInTail(s, tags[1..], sep);
    }
  }

  lemma {:induction false} ClosedInTail(s: string, tags: seq<string>, sep: string)
    requires SearchOk(s, tags, sep) && SuffixOk(s, sep)
    ensures Occurs(s + "\"", Tail(tags, sep)) <==> SomeEndsIn(s, tags)
  {
    hide Cut, Occurs, EndsIn;
    var t := tags[0];
    EscapePlain(t);
    NoQuoteIn(s, "]");
    EveryEnd(t);
    if |tags| == 1 {
      ClosedInCut(s, t, "]");
    } else {
      var tail := Tail(tags[1..], sep);
      ClosedInCut(s, t, Cut(sep, tail));
      ClosedInCut(s, sep, tail);
      ClosedInTail(s, tags[1..], sep);
    }
  }

  lemma EveryEnd(t: string)
    ensures EndsIn("", t) && Occurs("", t)
  {
    assert At("", t, |t|);
  }

  lemma {:induction false} InnerInTail(s: string, tags: seq<string>, sep: string)
    requires SearchOk(s, tags, sep) && InnerOk(s, sep)
    ensures Occurs(s, Tail(tags, sep)) <==> SomeOccurs(s, tags)
  {
    hide Cut, Occurs;
    var t := tags[0];
    EveryEnd(t);
    if |tags| == 1 {
      QuotelessInCut(s, t, "]");
    } else {
      var tail := Tail(tags[1..], sep);
      QuotelessInCut(s, t, Cut(sep, tail));
      QuotelessInCut(s, sep, tail);
      InnerInTail(s, tags[1..], sep);
    }
  }

  // ----- the four LIKE tests -----

  lemma NoQuoteInEmptyArray(s: string, sep: string)
    ensures ArrayText([], sep) == "[]" && !Occurs("\"" + s, "[]") && !Occurs(s + "\"", "[]")
  {
    NoQuoteIn(s, "[]");
  }

  /** `%"s"%` holds on the array text exactly when some tag is `s`. */
  lemma LikeExact(s: string, tags: seq<string>, sep: string)
    requires Separator(sep) && AllPlain(tags) && Quoteless(s) && NoWildcard(s) && ExactOk(s, sep)
    ensures Like("%\"" + s + "\"%", ArrayText(tags, sep)) <==> s in tags
  {
    hide Like, Occurs, Cut;
    var p := "\"" + (s + "\"");
    assert "%" + p + "%" == "%\"" + s + "\"%";
    LikeOccurs(p, ArrayText(tags, sep));
    if tags == [] {
      NoQuoteInEmptyArray(s + "\"", sep);
    } else {
      ArrayTextIsCut(tags, sep);
      OpenedInCut(s + "\"", "[", Tail(tags, sep));
      EnclosedInTail(s, tags, sep);
    }
  }

  /** `%"s%` holds on the array text exactly when some tag begins with `s`. */
  lemma LikePrefixed(s: string, tags: seq<string>, sep: string)
    requires Separator(sep) && AllPlain(tags) && Quoteless(s) && NoWildcard(s) && PrefixOk(s, sep)
    ensures Like("%\"" + s + "%", ArrayText(tags, sep)) <==> SomeExtends(s, tags)
  {
    hide Like, Occurs, Cut;
    var p := "\"" + s;
    assert "%" + p + "%" == "%\"" + s + "%";
    LikeOccurs(p, ArrayText(tags, sep));
    if tags == [] {
      NoQuoteInEmptyArray(s, sep);
    } else {
      ArrayTextIsCut(tags, sep);
      OpenedInCut(s, "[", Tail(tags, sep));
      OpenedInTail(s, tags, sep);
    }
  }

  /** `%"s/%` finds the tags below `s`; no search text is excluded here. */
  lemma LikeBelow(s: string, tags: seq<string>, sep: string)
    requires Separator(sep) && AllPlain(tags) && Quoteless(s) && NoWildcard(s)
    ensures Like("%\"" + s + "/%", ArrayText(tags, sep)) <==> SomeExtends(s + "/", tags)
  {
    hide Like;
    var p := s + "/";
    assert p[|s|] == '/';
    assert forall i | 0 <= i < |p| :: p[i] == '/' || p[i] in s;
    assert "%\"" + p + "%" == "%\"" + s + "/%";
    LikePrefixed(p, tags, sep);
  }

  /** `%s"%` holds on the array text exactly when some tag ends in `s`. */
  lemma LikeSuffixed(s: string, tags: seq<string>, sep: string)
    requires Separator(sep) && AllPlain(tags) && Quoteless(s) && NoWildcard(s) && SuffixOk(s, sep)
    ensures Like("%" + s + "\"%", ArrayText(tags, sep)) <==> SomeEndsIn(s, tags)
  {
    hide Like, Occurs, Cut, EndsIn;
    var p := s + "\"";
    assert "%" + p + "%" == "%" + s + "\"%";
    LikeOccurs(p, ArrayText(tags, sep));
    if tags == [] {
      NoQuoteInEmptyArray(s, sep);
    } else {
      ArrayTextIsCut(tags, sep);
      ClosedInCut(s, "[", Tail(tags, sep));
      ClosedInTail(s, tags, sep);
      EveryEnd(tags[0]);
    }
  }

  /** `%s%` holds on the text of a non-empty array exactly when `s` occurs in some tag. */
  lemma LikeInner(s: string, tags: seq<string>, sep: string)
    requires tags != [] && Separator(sep) && AllPlain(tags) && Quoteless(s) && NoWildcard(s) && InnerOk(s, sep)
    ensures Like("%" + s + "%", ArrayText(tags, sep)) <==> SomeOccurs(s, tags)
  {
    hide Like, Occurs, Cut;
    LikeOccurs(s, ArrayText(tags, sep));
    ArrayTextIsCut(tags, sep);
    QuotelessInCut(s, "[", Tail(tags, sep));
    InnerInTail(s, tags, sep);
    EveryEnd(tags[0]);
  }

  /** The excluded search texts are exactly those that fail on some tag list: two empty tags show it. */
  lemma PunctuationFails(s: string, sep: string)
    requires Separator(sep) && Quoteless(s) && NoWildcard(s)
    ensures var two := ["", ""];
            (!ExactOk(s, sep) ==> Like("%\"" + s + "\"%", ArrayText(two, sep)) && s !in two) &&
            (!PrefixOk(s, sep) ==> Like("%\"" + s + "%", ArrayText(two, sep)) && !SomeExtends(s, two)) &&
            (!SuffixOk(s, sep) ==> Like("%" + s + "\"%", ArrayText(two, sep)) && !SomeEndsIn(s, two)) &&
            (!InnerOk(s, sep) ==> Like("%" + s + "%", ArrayText(two, sep)) && !SomeOccurs(s, two))
  {
    hide Like, Occurs, Cut, EndsIn;
    var two := ["", ""];
    var end := Cut("", "]");
    var text := ArrayText(two, sep);
    EscapePlain("");
    ArrayTextIsCut(two, sep);
    assert two[1..] == [""];
    assert Tail(two[1..], sep) == end;
    var tail := Cut("", Cut(sep, end));
    assert text == Cut("[", tail);
    QuotesInText(s, sep, tail, end);
    EmptyTags(s);
  }

  lemma QuotesInText(s: string, sep: string, tail: string, end: string)
    requires Separator(sep) && Quoteless(s) && NoWildcard(s) && end == Cut("", "]") && tail == Cut("", Cut(sep, end))
    ensures var text := Cut("[", tail);
            (s == sep ==> Like("%\"" + s + "\"%", text)) &&
            (s <= sep || s <= "]" ==> Like("%\"" + s + "%", text)) &&
            (EndsIn(s, "[") || EndsIn(s, sep) ==> Like("%" + s + "\"%", text)) &&
            (Occurs(s, "[") || Occurs(s, sep) || Occurs(s, "]") ==> Like("%" + s + "%", text))
  {
    hide Like, Occurs, Cut, EndsIn;
    var text, p := Cut("[", tail), s + "\"";
    assert "%" + ("\"" + p) + "%" == "%\"" + s + "\"%";
    assert "%" + ("\"" + s) + "%" == "%\"" + s + "%";
    assert "%" + p + "%" == "%" + s + "\"%";
    LikeOccurs("\"" + p, text);
    LikeOccurs("\"" + s, text);
    LikeOccurs(p, text);
    LikeOccurs(s, text);
    OpenedThrice(p, sep, tail, end);
    OpenedThrice(s, sep, tail, end);
    ClosedPrefixOfCut(s, sep, end);
    PrefixOfCut(s, sep, end);
    ClosedInCut(s, "[", tail);
    ClosedInCut(s, "", Cut(sep, end));
    ClosedInCut(s, sep, end);
    QuotelessInCut(s, "[", tail);
    QuotelessInCut(s, "", Cut(sep, end));
    QuotelessInCut(s, sep, end);
    QuotelessInCut(s, "", "]");
  }

  lemma OpenedThrice(p: string, sep: string, tail: string, end: string)
    requires Separator(sep) && end == Cut("", "]") && tail == Cut("", Cut(sep, end))
    ensures p <= Cut(sep, end) || p <= "]" ==> Occurs("\"" + p, Cut("[", tail))
  {
    hide Occurs, Cut;
    OpenedInCut(p, "[", tail);
    OpenedInCut(p, "", Cut(sep, end));
    OpenedInCut(p, sep, end);
    OpenedInCut(p, "", "]");
  }

  /** No empty tag satisfies a test for text that is not empty. */
  lemma EmptyTags(s: string)
    ensures s != "" ==> !SomeExtends(s, ["", ""]) && !SomeEndsIn(s, ["", ""]) && !SomeOccurs(s, ["", ""])
  {}

  // ----- wildcards -----

  /** A text that a pattern finds and that has no wildcard: `_` stands for `x` and `%` for nothing. */
  function Instance(s: string): string {
    if s == "" then ""
    else (if s[0] == '%' then "" else if s[0] == '_' then "x" else [s[0]]) + Instance(s[1..])
  }

  lemma {:induction false} InstanceIsFound(s: string, p: string, t: string)
    requires Like(p, t)
    ensures Like(s + p, Instance(s) + t)
    decreases |s|
  {
    hide Like;
    if s == "" {
      assert s + p == p && Instance(s) + t == t;
    } else {
      InstanceIsFound(s[1..], p, t);
      var first := if s[0] == '%' then "" else if s[0] == '_' then "x" else [s[0]];
      assert s + p == [s[0]] + (s[1..] + p) && Instance(s) + t == first + (Instance(s[1..]) + t);
      LikeCons(s[0], s[1..] + p, Instance(s[1..]) + t);
    }
  }

  lemma LikeCons(c: char, p: string, t: string)
    requires Like(p, t)
    ensures Like([c] + p, (if c == '%' then "" else if c == '_' then "x" else [c]) + t)
  {
    assert ([c] + p)[1..] == p;
    assert "" + t == t;
    if c != '%' { assert ((if c == '_' then "x" else [c]) + t)[1..] == t; }
  }

  lemma {:induction false} InstanceIsPlain(s: string)
    ensures NoWildcard(Instance(s)) && (Plain(s) ==> Plain(Instance(s)))
  {
    if s != "" {
      InstanceIsPlain(s[1..]);
      if Plain(s) { assert PlainChar(s[0]) && forall i | 0 <= i < |s[1..]| :: s[1..][i] == s[i + 1]; }
    }
  }

  lemma {:induction false} LikeAfter(a: string, p: string, t: string)
    requires Like(p, t)
    ensures Like("%" + p, a + t)
    decreases |a|
  {
    assert ("%" + p)[1..] == p;
    if a == "" {
      assert a + t == t;
    } else {
      LikeAfter(a[1..], p, t);
      assert (a + t)[1..] == a[1..] + t;
    }
  }

  /** Search text with a wildcard is found in the array of one tag that it is not the text, nor a part, of. */
  lemma WildcardFails(s: string, sep: string)
    requires Plain(s) && !NoWildcard(s)
    ensures var one := [Instance(s)];
            AllPlain(one) && s !in one && !SomeExtends(s, one) && !SomeEndsIn(s, one) && !SomeOccurs(s, one) &&
            Like("%\"" + s + "\"%", ArrayText(one, sep)) && Like("%\"" + s + "%", ArrayText(one, sep)) &&
            Like("%" + s + "\"%", ArrayText(one, sep)) && Like("%" + s + "%", ArrayText(one, sep))
  {
    hide Like, ArrayText, EndsIn, Occurs, Instance, NoWildcard;
    InstanceIsPlain(s);
    NotAPart(s, Instance(s));
    OneTagText(Instance(s), sep);
    LikeEnds();
    FoundBetween(s, Instance(s), "%");
    FoundBetween(s, Instance(s), "\"%");
    assert "%\"" + s + "\"%" == "%" + ("\"" + (s + "\"%")) && "%\"" + s + "%" == "%" + ("\"" + (s + "%"));
    assert "%" + s + "\"%" == "%" + (s + "\"%") && "%" + s + "%" == "%" + (s + "%");
  }

  lemma OneTagText(t: string, sep: string)
    requires Plain(t)
    ensures ArrayText([t], sep) == "[" + ("\"" + (t + "\"]")) == "[\"" + (t + "\"]")
  {
    EscapePlain(t);
  }

  lemma LikeEnds()
    ensures Like("%", "\"]") && Like("\"%", "\"]")
  {
    hide Like;
    LikeAny("\"]");
    LikeAny("]");
    LikeCons('"', "%", "]");
    assert ['"'] + "%" == "\"%" && ['"'] + "]" == "\"]";
  }

  lemma FoundBetween(s: string, t: string, end: string)
    requires t == Instance(s) && Like(end, "\"]")
    ensures Like("%" + (s + end), "[\"" + (t + "\"]"))
    ensures Like("%" + ("\"" + (s + end)), "[" + ("\"" + (t + "\"]")))
  {
    hide Like;
    InstanceIsFound(s, end, "\"]");
    LikeAfter("[\"", s + end, t + "\"]");
    LikeCons('"', s + end, t + "\"]");
    assert ['"'] + (s + end) == "\"" + (s + end) && ['"'] + (t + "\"]") == "\"" + (t + "\"]");
    LikeAfter("[", "\"" + (s + end), "\"" + (t + "\"]"));
  }

  lemma NotAPart(s: string, t: string)
    requires !NoWildcard(s) && NoWildcard(t)
    ensures s != t && !(s <= t) && !EndsIn(s, t) && !Occurs(s, t)
  {
    hide NoWildcard;
    if s <= t { PartHasNoWildcard(s, t, 0); }
    if k :| At(s, t, k) { PartHasNoWildcard(s, t, k); }
  }

  lemma PartHasNoWildcard(s: string, t: string, k: nat)
    requires NoWildcard(t) && At(s, t, k)
    ensures NoWildcard(s)
  {
    forall i | 0 <= i < |s| ensures s[i] != '%' && s[i] != '_' { assert t[k..k + |s|][i] == t[k + i]; }
  }

  /** The four tests find exactly what they look for, on all lists of plain tags, if and only if the search text has
      no wildcard and is not array punctuation. */
  lemma ExactSearchIff(s: string, sep: string)
    requires Separator(sep) && Plain(s)
    ensures (forall tags :: AllPlain(tags) ==> (Like("%\"" + s + "\"%", ArrayText(tags, sep)) <==> s in tags))
            <==> NoWildcard(s) && ExactOk(s, sep)
  {
    hide Like, ArrayText, ExactOk;
    EscapePlain(s);
    if !NoWildcard(s) {
      WildcardFails(s, sep);
    } else if !ExactOk(s, sep) {
      PunctuationFails(s, sep);
      assert AllPlain(["", ""]);
    } else {
      forall tags | AllPlain(tags) ensures Like("%\"" + s + "\"%", ArrayText(tags, sep)) <==> s in tags {
        LikeExact(s, tags, sep);
      }
    }
  }

  lemma PrefixSearchIff(s: string, sep: string)
    requires Separator(sep) && Plain(s)
    ensures (forall tags :: AllPlain(tags) ==> (Like("%\"" + s + "%", ArrayText(tags, sep)) <==> SomeExtends(s, tags)))
            <==> NoWildcard(s) && PrefixOk(s, sep)
  {
    hide Like, ArrayText, PrefixOk, SomeExtends;
    EscapePlain(s);
    if !NoWildcard(s) {
      WildcardFails(s, sep);
    } else if !PrefixOk(s, sep) {
      PunctuationFails(s, sep);
      assert AllPlain(["", ""]);
    } else {
      forall tags | AllPlain(tags) ensures Like("%\"" + s + "%", ArrayText(tags, sep)) <==> SomeExtends(s, tags) {
        LikePrefixed(s, tags, sep);
      }
    }
  }

  lemma SuffixSearchIff(s: string, sep: string)
    requires Separator(sep) && Plain(s)
    ensures (forall tags :: AllPlain(tags) ==> (Like("%" + s + "\"%", ArrayText(tags, sep)) <==> SomeEndsIn(s, tags)))
            <==> NoWildcard(s) && SuffixOk(s, sep)
  {
    hide Like, ArrayText, SuffixOk, SomeEndsIn;
    EscapePlain(s);
    if !NoWildcard(s) {
      WildcardFails(s, sep);
    } else if !SuffixOk(s, sep) {
      PunctuationFails(s, sep);
      assert AllPlain(["", ""]);
    } else {
      forall tags | AllPlain(tags) ensures Like("%" + s + "\"%", ArrayText(tags, sep)) <==> SomeEndsIn(s, tags) {
        LikeSuffixed(s, tags, sep);
      }
    }
  }

  /** Here the list is not empty, as the rendered test makes sure. */
  lemma InnerSearchIff(s: string, sep: string)
    requires Separator(sep) && Plain(s)
    ensures (forall tags :: AllPlain(tags) && tags != [] ==>
               (Like("%" + s + "%", ArrayText(tags, sep)) <==> SomeOccurs(s, tags)))
            <==> NoWildcard(s) && InnerOk(s, sep)
  {
    hide Like, ArrayText, InnerOk, SomeOccurs;
    EscapePlain(s);
    if !NoWildcard(s) {
      WildcardFails(s, sep);
    } else if !InnerOk(s, sep) {
      PunctuationFails(s, sep);
      assert AllPlain(["", ""]);
    } else {
      forall tags | AllPlain(tags) && tags != []
        ensures Like("%" + s + "%", ArrayText(tags, sep)) <==> SomeOccurs(s, tags)
      {
        LikeInner(s, tags, sep);
      }
    }
  }

  // ----- case folding -----

  predicate Structural(c: char) {
    c == '"' || c == '[' || c == ']' || c == ',' || c == ' ' || c == '/' || c == '%' || c == '_' || c == '\\' || c < ' '
  }

  /** A case folding leaves the characters that structure array texts and patterns alone. */
  ghost predicate Folding(f: char -> char) {
    forall c: char {:trigger f(c)} :: if Structural(c) then f(c) == c else !Structural(f(c))
  }

  function Fold(f: char -> char, s: string): (r: string)
    ensures |r| == |s| && forall i | 0 <= i < |s| :: r[i] == f(s[i])
  {
    seq(|s|, i requires 0 <= i < |s| => f(s[i]))
  }

  function FoldAll(f: char -> char, tags: seq<string>): (r: seq<string>)
    ensures |r| == |tags| && forall i | 0 <= i < |tags| :: r[i] == Fold(f, tags[i])
  {
    seq(|tags|, i requires 0 <= i < |tags| => Fold(f, tags[i]))
  }

  lemma FoldConcat(f: char -> char, s: string, t: string)
    ensures Fold(f, s + t) == Fold(f, s) + Fold(f, t)
  {}

  lemma FoldKeepsPlain(f: char -> char, s: string)
    requires Folding(f)
    ensures (Plain(s) ==> Plain(Fold(f, s))) && (Quoteless(s) ==> Quoteless(Fold(f, s))) &&
            (NoWildcard(s) ==> NoWildcard(Fold(f, s)))
  {
    forall i | 0 <= i < |s| ensures s[i] in s && Fold(f, s)[i] == f(s[i]) {}
  }

  lemma FoldCut(f: char -> char, c: string, r: string)
    requires Folding(f)
    ensures Fold(f, Cut(c, r)) == Cut(Fold(f, c), Fold(f, r))
  {}

  lemma FoldSeparators(f: char -> char, sep: string)
    requires Folding(f) && Separator(sep)
    ensures Fold(f, sep) == sep && Fold(f, "[") == "[" && Fold(f, "]") == "]" && Fold(f, "[]") == "[]"
  {}

  lemma {:induction false} FoldTail(f: char -> char, tags: seq<string>, sep: string)
    requires Folding(f) && Separator(sep) && tags != []
    ensures Fold(f, Tail(tags, sep)) == Tail(FoldAll(f, tags), sep)
  {
    hide Cut, Fold;
    FoldSeparators(f, sep);
    if |tags| == 1 {
      FoldCut(f, tags[0], "]");
    } else {
      FoldTail(f, tags[1..], sep);
      assert FoldAll(f, tags[1..]) == FoldAll(f, tags)[1..];
      FoldCut(f, tags[0], Cut(sep, Tail(tags[1..], sep)));
      FoldCut(f, sep, Tail(tags[1..], sep));
    }
  }

  /** The folded array text is the array text of the folded tags. */
  lemma FoldArrayText(f: char -> char, tags: seq<string>, sep: string)
    requires Folding(f) && Separator(sep) && AllPlain(tags)
    ensures AllPlain(FoldAll(f, tags)) && Fold(f, ArrayText(tags, sep)) == ArrayText(FoldAll(f, tags), sep)
  {
    hide Cut, Fold, Tail;
    forall t | t in FoldAll(f, tags) ensures Plain(t) {
      var i :| 0 <= i < |tags| && t == Fold(f, tags[i]);
      assert tags[i] in tags;
      FoldKeepsPlain(f, tags[i]);
    }
    FoldSeparators(f, sep);
    if tags != [] {
      ArrayTextIsCut(tags, sep);
      ArrayTextIsCut(FoldAll(f, tags), sep);
      FoldTail(f, tags, sep);
      FoldCut(f, "[", Tail(tags, sep));
    }
  }

  /** Folding neither makes nor unmakes array punctuation. */
  lemma FoldIsPunctuation(f: char -> char, s: string, p: string)
    requires Folding(f) && forall i | 0 <= i < |p| :: Structural(p[i])
    ensures Fold(f, s) == p <==> s == p
    ensures Fold(f, s) <= p <==> s <= p
    ensures EndsIn(Fold(f, s), p) <==> EndsIn(s, p)
    ensures Occurs(Fold(f, s), p) <==> Occurs(s, p)
  {
    FoldFixed(f, s, p);
    forall n, k | 0 <= n <= k <= |p| ensures Fold(f, s) == p[n..k] <==> s == p[n..k] {
      FoldFixed(f, s, p[n..k]);
    }
    if |s| <= |p| { assert p[..|s|] == p[0..|s|]; }
    forall k ensures At(Fold(f, s), p, k) <==> At(s, p, k) {}
  }

  lemma FoldFixed(f: char -> char, s: string, p: string)
    requires Folding(f) && forall i | 0 <= i < |p| :: Structural(p[i])
    ensures Fold(f, s) == p <==> s == p
  {
    if Fold(f, s) == p {
      forall i | 0 <= i < |s| ensures s[i] == p[i] { assert f(s[i]) == p[i]; }
    }
    if s == p { forall i | 0 <= i < |p| ensures f(p[i]) == p[i] {} }
  }

  lemma FoldKeepsOk(f: char -> char, s: string, sep: string)
    requires Folding(f) && Separator(sep)
    ensures ExactOk(s, sep) <==> ExactOk(Fold(f, s), sep)
    ensures PrefixOk(s, sep) <==> PrefixOk(Fold(f, s), sep)
    ensures SuffixOk(s, sep) <==> SuffixOk(Fold(f, s), sep)
    ensures InnerOk(s, sep) <==> InnerOk(Fold(f, s), sep)
  {
    hide Fold, EndsIn, Occurs;
    FoldIsPunctuation(f, s, sep);
    FoldIsPunctuation(f, s, "[");
    FoldIsPunctuation(f, s, "]");
  }

  lemma FoldSame(f: char -> char, s: string)
    requires forall c: char {:trigger f(c)} :: f(c) == c
    ensures Fold(f, s) == s
  {}

  /** A pattern around a search text folds to the pattern around the folded text. */
  lemma FoldAround(f: char -> char, a: string, s: string, b: string)
    requires Folding(f) && (forall i | 0 <= i < |a| :: Structural(a[i])) &&
             (forall i | 0 <= i < |b| :: Structural(b[i]))
    ensures Fold(f, a + s + b) == a + Fold(f, s) + b
  {
    FoldConcat(f, a + s, b);
    FoldConcat(f, a, s);
    FoldFixed(f, a, a);
    FoldFixed(f, b, b);
  }
}
