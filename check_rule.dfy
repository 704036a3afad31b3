/**
  The `CheckRule "$TAG <cmp> N" ACTION` directive: the hand-written scanner of
  naxsi_skeleton.c that turns its two arguments into a check-rule entry.

  The arguments are NUL-terminated C strings. A Dafny string `s` stands for the
  buffer holding `s` followed by its terminator, and `At(s, i)` reads that
  buffer, so every scan below stops at the first NUL exactly as the C does,
  whether or not `s` itself contains one.
*/
module CheckRules {

  const NUL: char := '\0'

  /** Character `i` of the NUL-terminated buffer holding `s`; past the end it is the terminator. */
  function At(s: string, i: nat): char
  {
    if i < |s| then s[i] else NUL
  }

  predicate IsDigit(c: char)
  {
    '0' <= c <= '9'
  }

  /**
    `strchr(s + i, c)`: the index of the first `c` at or after `i`, or the index
    of the terminator when no `c` comes before it.
  */
  function Strchr(s: string, i: nat, c: char): (j: nat)
    requires i <= |s|
    ensures i <= j <= |s|
    ensures At(s, j) == c || At(s, j) == NUL
    ensures forall k :: i <= k < j ==> At(s, k) != c && At(s, k) != NUL
    decreases |s| - i
  {
    if At(s, i) == c || At(s, i) == NUL then i else Strchr(s, i + 1, c)
  }

  /** Where the loop at naxsi_skeleton.c:505-506 stops: the first non-space at or after `i`. */
  function SkipSpaces(s: string, i: nat): (j: nat)
    requires i <= |s|
    ensures i <= j <= |s|
    ensures At(s, j) != ' '
    ensures forall k :: i <= k < j ==> At(s, k) == ' '
    decreases |s| - i
  {
    if At(s, i) == ' ' then SkipSpaces(s, i + 1) else i
  }

  /** A character that ends the scan for the threshold: the terminator, a digit or a minus sign. */
  predicate StartsNumber(c: char)
  {
    c == NUL || IsDigit(c) || c == '-'
  }

  /** Where the loop at naxsi_skeleton.c:521-523 stops. */
  function SkipToNumber(s: string, i: nat): (j: nat)
    requires i <= |s|
    ensures i <= j <= |s|
    ensures StartsNumber(At(s, j))
    ensures forall k :: i <= k < j ==> !StartsNumber(At(s, k))
    decreases |s| - i
  {
    if StartsNumber(At(s, i)) then i else SkipToNumber(s, i + 1)
  }

  /** End of the run of decimal digits that starts at `i`. */
  function DigitsEnd(s: string, i: nat): (j: nat)
    requires i <= |s|
    ensures i <= j <= |s|
    ensures !IsDigit(At(s, j))
    ensures forall k :: i <= k < j ==> IsDigit(At(s, k))
    decreases |s| - i
  {
    if IsDigit(At(s, i)) then DigitsEnd(s, i + 1) else i
  }

  predicate AllDigits(ds: string)
  {
    forall k :: 0 <= k < |ds| ==> IsDigit(ds[k])
  }

  function DigitValue(c: char): nat
    requires IsDigit(c)
  {
    c as int - '0' as int
  }

  /** The value of a string of decimal digits, most significant first. */
  function Value(ds: string): nat
    requires AllDigits(ds)
  {
    if ds == [] then 0 else Value(ds[..|ds| - 1]) * 10 + DigitValue(ds[|ds| - 1])
  }

  /**
    `atoi(s)` on the strings the scanner hands it, which start with a digit, a
    minus sign or the terminator: an optional minus followed by the longest run
    of digits; no digits give 0.
  */
  function Atoi(s: string): int
  {
    if At(s, 0) == '-' then
      var e := DigitsEnd(s, 1);
      assert forall k :: 0 <= k < e - 1 ==> s[1..e][k] == At(s, k + 1);
      -(Value(s[1..e]) as int)
    else
      var e := DigitsEnd(s, 0);
      assert forall k :: 0 <= k < e ==> s[..e][k] == At(s, k);
      Value(s[..e])
  }

  /**
    Whether `w` occurs in the C string held by `c` at an index `k' >= k`; the
    scan is the one `strstr` performs.
  */
  predicate OccursFrom(c: string, w: string, k: nat)
    decreases |c| - k
  {
    k + |w| <= |c| && (c[k..k + |w|] == w || OccursFrom(c, w, k + 1))
  }

  /** `strstr(a, w) != NULL`: `w` occurs in `a` before its terminator. */
  predicate Contains(a: string, w: string)
  {
    OccursFrom(a[..Strchr(a, 0, NUL)], w, 0)
  }

  /** `w` sits in `c` at position `j`. */
  predicate FoundAt(c: string, w: string, j: nat)
  {
    j + |w| <= |c| && c[j..j + |w|] == w
  }

  /** A successful scan has found `w` at some position from `k` on. */
  lemma {:induction false} OccursFromWitness(c: string, w: string, k: nat)
    requires OccursFrom(c, w, k)
    ensures exists j: nat :: k <= j && FoundAt(c, w, j)
    decreases |c| - k
  {
    if FoundAt(c, w, k) {
      assert k <= k && FoundAt(c, w, k);
    } else {
      OccursFromWitness(c, w, k + 1);
    }
  }

  /** `strstr` finds `w` exactly when `w` occurs in `a` before its terminator. */
  lemma ContainsIff(a: string, w: string)
    ensures Contains(a, w) ==> exists j: nat :: FoundAt(a[..Strchr(a, 0, NUL)], w, j)
    ensures forall j: nat :: FoundAt(a[..Strchr(a, 0, NUL)], w, j) ==> Contains(a, w)
  {
    var c := a[..Strchr(a, 0, NUL)];
    if Contains(a, w) {
      OccursFromWitness(c, w, 0);
    }
    forall j: nat | FoundAt(c, w, j) ensures Contains(a, w) {
      OccursAt(c, w, j, 0);
    }
  }

  /** The comparison types; `CmpUnset` is the zeroed field of a fresh entry. */
  datatype Comparator = CmpUnset | Sup | SupOrEqual | Inf | InfOrEqual

  /** A check-rule entry: score tag, comparison, threshold and the block flag. */
  datatype CheckRule = CheckRule(tag: string, cmp: Comparator, score: int, block: bool)

  /** The entry as `memset` leaves it before any field is parsed. */
  const ZeroCheckRule: CheckRule := CheckRule("", CmpUnset, 0, false)

  /**
    The outcome of parsing: the entry as far as it was filled in (it stays in
    the location's check rules either way) and whether the directive was accepted.
  */
  datatype CheckRuleParse = CheckRuleParse(entry: CheckRule, accepted: bool)

  /** The comparison named by the characters at `i` and `i + 1`, two-character forms first. */
  function ComparatorAt(s: string, i: nat): Comparator
  {
    if At(s, i) == '>' then (if At(s, i + 1) == '=' then SupOrEqual else Sup)
    else if At(s, i) == '<' then (if At(s, i + 1) == '=' then InfOrEqual else Inf)
    else CmpUnset
  }

  /** The action word names all three of BLOCK, ALLOW and LOG: the only rejected action. */
  predicate NamesAllActions(a: string)
  {
    Contains(a, "BLOCK") && Contains(a, "ALLOW") && Contains(a, "LOG")
  }

  /** What the scanner of naxsi_skeleton.c:484-541 makes of the arguments `s` and `a`. */
  function CheckRuleSpec(s: string, a: string): CheckRuleParse
  {
    if At(s, 0) != '$' then CheckRuleParse(ZeroCheckRule, false)
    else
      var varEnd := Strchr(s, 0, ' ');
      if At(s, varEnd) != ' ' then CheckRuleParse(ZeroCheckRule, false)
      else
        var tagged := ZeroCheckRule.(tag := s[..varEnd]);
        var i := SkipSpaces(s, varEnd + 1);
        var cmp := ComparatorAt(s, i);
        if cmp == CmpUnset then CheckRuleParse(tagged, false)
        else
          var scored := tagged.(cmp := cmp, score := Atoi(s[SkipToNumber(s, i)..]));
          if NamesAllActions(a) then CheckRuleParse(scored, false)
          else CheckRuleParse(scored.(block := true), true)
  }

  /** The scanner itself: an index `i` advanced over the first argument. */
  method ParseCheckRule(s: string, a: string) returns (p: CheckRuleParse)
    ensures p == CheckRuleSpec(s, a)
  {
    var rule := ZeroCheckRule;
    var i: nat := 0;
    if At(s, i) == '$' {
      var varEnd := Strchr(s, i, ' ');
      if At(s, varEnd) != ' ' {
        return CheckRuleParse(rule, false);
      }
      rule := rule.(tag := s[..varEnd]);
      i := i + varEnd + 1;
    } else {
      return CheckRuleParse(rule, false);
    }
    ghost var afterTag := i;
    while At(s, i) != NUL && At(s, i) == ' '
      invariant afterTag <= i <= |s|
      invariant SkipSpaces(s, i) == SkipSpaces(s, afterTag)
      decreases |s| - i
    {
      i := i + 1;
    }
    if At(s, i) == '>' && At(s, i + 1) == '=' {
      rule := rule.(cmp := SupOrEqual);
    } else if At(s, i) == '>' && At(s, i + 1) != '=' {
      rule := rule.(cmp := Sup);
    } else if At(s, i) == '<' && At(s, i + 1) == '=' {
      rule := rule.(cmp := InfOrEqual);
    } else if At(s, i) == '<' && At(s, i + 1) != '=' {
      rule := rule.(cmp := Inf);
    } else {
      return CheckRuleParse(rule, false);
    }
    ghost var atCmp := i;
    while At(s, i) != NUL && !IsDigit(At(s, i)) && At(s, i) != '-'
      invariant atCmp <= i <= |s|
      invariant SkipToNumber(s, i) == SkipToNumber(s, atCmp)
      decreases |s| - i
    {
      i := i + 1;
    }
    rule := rule.(score := Atoi(s[i..]));
    if !Contains(a, "BLOCK") {
      rule := rule.(block := true);
    } else if !Contains(a, "ALLOW") {
      rule := rule.(block := true);
    } else if !Contains(a, "LOG") {
      rule := rule.(block := true);
    } else {
      return CheckRuleParse(rule, false);
    }
    return CheckRuleParse(rule, true);
  }

  // ---------------------------------------------------------------------------
  // Properties of the scanner
  // ---------------------------------------------------------------------------

  /**
    The tag: without a leading `$`, or without a space before the terminator,
    the directive is rejected with the entry still zeroed; otherwise the tag is
    the whole prefix before the first space and the entry leaves the zeroed state.
  */
  lemma CheckRuleTag(s: string, a: string)
    ensures var p := CheckRuleSpec(s, a);
      (At(s, 0) != '$' || At(s, Strchr(s, 0, ' ')) != ' ') <==> (p.entry == ZeroCheckRule && !p.accepted)
    ensures var t := CheckRuleSpec(s, a).entry.tag;
      At(s, 0) == '$' && At(s, Strchr(s, 0, ' ')) == ' ' ==> t == s[..Strchr(s, 0, ' ')] && t != []
    ensures var t := CheckRuleSpec(s, a).entry.tag;
      t != [] ==>
        t[0] == '$' && |t| < |s| && t == s[..|t|] && s[|t|] == ' ' &&
        forall k :: 0 <= k < |t| ==> s[k] != ' ' && s[k] != NUL
  {
    var p := CheckRuleSpec(s, a);
    if At(s, 0) == '$' && At(s, Strchr(s, 0, ' ')) == ' ' {
      var e := Strchr(s, 0, ' ');
      assert forall k :: 0 <= k < e ==> At(s, k) == s[k];
      assert e > 0;
      assert p.entry.tag == s[..e];
      assert p.entry.tag[0] == '$';
    }
  }

  /**
    The comparison: after the tag and any spaces, `>=`, `>` (not followed by
    `=`), `<=` and `<` give SUP_OR_EQUAL, SUP, INF_OR_EQUAL and INF; any other
    character rejects the directive before a score is read.
  */
  lemma CheckRuleComparator(s: string, a: string)
    requires At(s, 0) == '$' && At(s, Strchr(s, 0, ' ')) == ' '
    ensures var i, p := SkipSpaces(s, Strchr(s, 0, ' ') + 1), CheckRuleSpec(s, a);
      && (At(s, i) == '>' && At(s, i + 1) == '=' ==> p.entry.cmp == SupOrEqual)
      && (At(s, i) == '>' && At(s, i + 1) != '=' ==> p.entry.cmp == Sup)
      && (At(s, i) == '<' && At(s, i + 1) == '=' ==> p.entry.cmp == InfOrEqual)
      && (At(s, i) == '<' && At(s, i + 1) != '=' ==> p.entry.cmp == Inf)
      && (At(s, i) != '>' && At(s, i) != '<' ==>
            && !p.accepted && p.entry.cmp == CmpUnset && p.entry.score == 0 && !p.entry.block
            && p.entry.tag == s[..Strchr(s, 0, ' ')])
  {
  }

  /**
    The threshold is `atoi` of the text from the first digit or minus sign at or
    after the comparison; when none comes before the terminator it is 0.
  */
  lemma CheckRuleScore(s: string, a: string)
    requires CheckRuleSpec(s, a).entry.cmp != CmpUnset
    ensures var i := SkipSpaces(s, Strchr(s, 0, ' ') + 1);
      exists j :: i <= j <= |s| && StartsNumber(At(s, j)) &&
        (forall k :: i <= k < j ==> !StartsNumber(At(s, k))) &&
        CheckRuleSpec(s, a).entry.score == Atoi(s[j..])
    ensures var i := SkipSpaces(s, Strchr(s, 0, ' ') + 1);
      (forall k :: i <= k <= |s| ==> !IsDigit(At(s, k)) && At(s, k) != '-') ==>
        CheckRuleSpec(s, a).entry.score == 0
  {
    var i := SkipSpaces(s, Strchr(s, 0, ' ') + 1);
    var j := SkipToNumber(s, i);
    assert CheckRuleSpec(s, a).entry.score == Atoi(s[j..]);
    if forall k :: i <= k <= |s| ==> !IsDigit(At(s, k)) && At(s, k) != '-' {
      assert At(s, j) == NUL;
      assert At(s[j..], 0) == NUL;
      assert DigitsEnd(s[j..], 0) == 0;
    }
  }

  /**
    The action: once the comparison is read, the directive is accepted exactly
    when the action word does not contain all of BLOCK, ALLOW and LOG, and an
    accepted entry always has its block flag set.
  */
  lemma CheckRuleAction(s: string, a: string)
    requires CheckRuleSpec(s, a).entry.cmp != CmpUnset
    ensures CheckRuleSpec(s, a).accepted <==> !NamesAllActions(a)
    ensures CheckRuleSpec(s, a).entry.block <==> CheckRuleSpec(s, a).accepted
  {
  }

  // ---------------------------------------------------------------------------
  // Round trip: a directive written out from an entry parses back to it
  // ---------------------------------------------------------------------------

  function DigitChar(d: nat): char
    requires d < 10
  {
    ('0' as int + d) as char
  }

  /** Decimal text of a natural number. */
  function NatText(n: nat): string
    decreases n
  {
    if n < 10 then [DigitChar(n)] else NatText(n / 10) + [DigitChar(n % 10)]
  }

  /** Decimal text of an integer, with a leading minus when negative. */
  function IntText(n: int): string
  {
    if n < 0 then "-" + NatText(-n) else NatText(n)
  }

  function CmpText(c: Comparator): string
  {
    match c
    case CmpUnset => ""
    case Sup => ">"
    case SupOrEqual => ">="
    case Inf => "<"
    case InfOrEqual => "<="
  }

  /** A tag as the scanner can read it back: `$`-prefixed, no space, no NUL. */
  predicate WellFormedTag(t: string)
  {
    |t| > 0 && t[0] == '$' && ' ' !in t && NUL !in t
  }

  /** The first argument of a `CheckRule` directive for tag `t`, comparison `c` and threshold `n`. */
  function ScoreText(t: string, c: Comparator, n: int): string
  {
    t + " " + CmpText(c) + " " + IntText(n)
  }

  lemma {:induction false} NatTextDigits(n: nat)
    ensures |NatText(n)| > 0 && AllDigits(NatText(n))
    ensures Value(NatText(n)) == n
    decreases n
  {
    if n >= 10 {
      NatTextDigits(n / 10);
      var x := NatText(n / 10);
      var c := DigitChar(n % 10);
      assert NatText(n) == x + [c];
      assert (x + [c])[..|x|] == x;
      assert AllDigits(x + [c]);
      assert Value(x + [c]) == Value(x) * 10 + DigitValue(c);
    }
  }

  /** `atoi` reads back the decimal text of every integer. */
  lemma AtoiIntText(n: int)
    ensures Atoi(IntText(n)) == n
  {
    var m := if n < 0 then -n else n;
    NatTextDigits(m);
    var d := NatText(m);
    var s := IntText(n);
    if n < 0 {
      assert s == "-" + d;
      assert forall k :: 1 <= k <= |d| ==> At(s, k) == d[k - 1];
      DigitsEndAll(s, 1);
      assert s[1..|s|] == d;
    } else {
      assert s == d;
      assert forall k :: 0 <= k < |d| ==> At(s, k) == d[k];
      DigitsEndAll(s, 0);
      assert s[..|s|] == d;
    }
  }

  lemma DigitsEndAll(s: string, i: nat)
    requires i <= |s|
    requires forall k :: i <= k < |s| ==> IsDigit(s[k])
    ensures DigitsEnd(s, i) == |s|
  {
  }

  /** The tag of a written-out entry ends at the space that follows it. */
  lemma ScoreTextTag(t: string, c: Comparator, n: int)
    requires WellFormedTag(t)
    ensures var s := ScoreText(t, c, n);
      Strchr(s, 0, ' ') == |t| && s[..|t|] == t
  {
    var s := ScoreText(t, c, n);
    assert s == t + ([' '] + CmpText(c) + [' '] + IntText(n));
    assert forall k :: 0 <= k < |t| ==> At(s, k) != ' ' && At(s, k) != NUL by {
      forall k | 0 <= k < |t| ensures At(s, k) != ' ' && At(s, k) != NUL {
        assert s[k] == t[k] && t[k] in t;
      }
    }
    assert At(s, |t|) == ' ';
    assert s[..|t|] == t;
  }

  /** The comparison of a written-out entry directly follows the space behind the tag. */
  lemma ScoreTextComparator(t: string, c: Comparator, n: int)
    requires c != CmpUnset
    ensures var s, q := ScoreText(t, c, n), |t| + 1;
      q <= |s| && SkipSpaces(s, q) == q && ComparatorAt(s, q) == c
  {
    var s, q, ct := ScoreText(t, c, n), |t| + 1, CmpText(c);
    assert s == (t + [' ']) + ct + ([' '] + IntText(n));
    assert At(s, q) == ct[0];
    if |ct| == 2 {
      assert At(s, q + 1) == ct[1];
    } else {
      assert At(s, q + 1) == ' ';
    }
  }

  /** The threshold text of a written-out entry is the first place a number can start. */
  lemma ScoreTextThreshold(t: string, c: Comparator, n: int)
    requires c != CmpUnset
    ensures var s, q, p := ScoreText(t, c, n), |t| + 1, |t| + |CmpText(c)| + 2;
      p <= |s| && SkipToNumber(s, q) == p && s[p..] == IntText(n)
  {
    var s, q, ct, d := ScoreText(t, c, n), |t| + 1, CmpText(c), IntText(n);
    var p := q + |ct| + 1;
    assert s == (t + [' ']) + (ct + [' ']) + d;
    assert s[p..] == d;
    NatTextDigits(if n < 0 then -n else n);
    assert StartsNumber(At(s, p)) by {
      assert At(s, p) == d[0];
    }
    assert forall k :: q <= k < p ==> !StartsNumber(At(s, k)) by {
      forall k | q <= k < p ensures !StartsNumber(At(s, k)) {
        assert At(s, k) == (ct + [' '])[k - q];
      }
    }
  }

  /**
    Writing an entry out as `"<tag> <cmp> <threshold>"` and parsing it back
    yields the same tag, comparison and threshold, with the block flag set,
    for every action word except one naming all three actions.
  */
  lemma CheckRuleRoundTrip(t: string, c: Comparator, n: int, a: string)
    requires WellFormedTag(t) && c != CmpUnset
    ensures CheckRuleSpec(ScoreText(t, c, n), a) ==
      if NamesAllActions(a) then CheckRuleParse(CheckRule(t, c, n, false), false)
      else CheckRuleParse(CheckRule(t, c, n, true), true)
  {
    ScoreTextTag(t, c, n);
    ScoreTextComparator(t, c, n);
    ScoreTextThreshold(t, c, n);
    AtoiIntText(n);
  }

  // ---------------------------------------------------------------------------
  // The action quirk on concrete words
  // ---------------------------------------------------------------------------

  /** An occurrence of `w` at `k` is found by the scan from any `m <= k`. */
  lemma {:induction false} OccursAt(c: string, w: string, k: nat, m: nat)
    requires m <= k && k + |w| <= |c| && c[k..k + |w|] == w
    ensures OccursFrom(c, w, m)
    decreases k - m
  {
    if m < k {
      OccursAt(c, w, k, m + 1);
    }
  }

  lemma CStrPlain(a: string)
    requires forall k :: 0 <= k < |a| ==> a[k] != NUL
    ensures a[..Strchr(a, 0, NUL)] == a
  {
  }

  /** Neither BLOCK, ALLOW, LOG nor DROP contains all three action names. */
  lemma SingleWordsNameOneAction()
    ensures !NamesAllActions("BLOCK") && !NamesAllActions("ALLOW")
    ensures !NamesAllActions("LOG") && !NamesAllActions("DROP")
  {
    CStrPlain("BLOCK");
    CStrPlain("ALLOW");
    CStrPlain("LOG");
    CStrPlain("DROP");
    assert !OccursFrom("BLOCK", "ALLOW", 1);
    assert !OccursFrom("ALLOW", "BLOCK", 1);
  }

  /** A word spelling out all three names is the one action that is rejected. */
  lemma AllThreeNamesRejected()
    ensures NamesAllActions("BLOCKALLOWLOG")
  {
    var w := "BLOCKALLOWLOG";
    assert forall k :: 0 <= k < |w| ==> w[k] != NUL;
    CStrPlain(w);
    assert w[0..5] == "BLOCK";
    assert w[5..10] == "ALLOW";
    assert w[10..13] == "LOG";
    OccursAt(w, "BLOCK", 0, 0);
    OccursAt(w, "ALLOW", 5, 0);
    OccursAt(w, "LOG", 10, 0);
  }

  /**
    BLOCK, ALLOW and LOG all set the block flag, and so does any other word
    such as DROP; a word containing all three names is rejected.
  */
  lemma ActionWordsAllBlock(s: string)
    requires CheckRuleSpec(s, "BLOCK").entry.cmp != CmpUnset
    ensures CheckRuleSpec(s, "BLOCK").accepted && CheckRuleSpec(s, "BLOCK").entry.block
    ensures CheckRuleSpec(s, "ALLOW").accepted && CheckRuleSpec(s, "ALLOW").entry.block
    ensures CheckRuleSpec(s, "LOG").accepted && CheckRuleSpec(s, "LOG").entry.block
    ensures CheckRuleSpec(s, "DROP").accepted && CheckRuleSpec(s, "DROP").entry.block
    ensures !CheckRuleSpec(s, "BLOCKALLOWLOG").accepted
  {
    SingleWordsNameOneAction();
    AllThreeNamesRejected();
  }

  /** `CheckRule "$ARGS > 8" BLOCK` gives tag `$ARGS`, SUP, 8, block. */
  lemma ExampleArgsAbove8()
    ensures CheckRuleSpec("$ARGS > 8", "BLOCK") == CheckRuleParse(CheckRule("$ARGS", Sup, 8, true), true)
  {
    assert ScoreText("$ARGS", Sup, 8) == "$ARGS > 8";
    CheckRuleRoundTrip("$ARGS", Sup, 8, "BLOCK");
    ActionWordsAllBlock("$ARGS > 8");
  }

  /** `CheckRule "$X >= -3" ...`: a negative threshold. */
  lemma ExampleNegativeThreshold()
    ensures CheckRuleSpec("$X >= -3", "LOG") == CheckRuleParse(CheckRule("$X", SupOrEqual, -3, true), true)
  {
    assert ScoreText("$X", SupOrEqual, -3) == "$X >= -3";
    CheckRuleRoundTrip("$X", SupOrEqual, -3, "LOG");
    ActionWordsAllBlock("$X >= -3");
  }

  /** `CheckRule "$SQL >= 4" LOG` resolves to the block flag, like every accepted action. */
  lemma ExampleSqlLog()
    ensures CheckRuleSpec("$SQL >= 4", "LOG") == CheckRuleParse(CheckRule("$SQL", SupOrEqual, 4, true), true)
  {
    assert ScoreText("$SQL", SupOrEqual, 4) == "$SQL >= 4";
    CheckRuleRoundTrip("$SQL", SupOrEqual, 4, "LOG");
    ActionWordsAllBlock("$SQL >= 4");
  }
}
