/** The pure helpers of the browser script: Utils.formatPhoneNumber,
    Utils.validateEmail, and the JSON payload FormHandler.handleSubmit posts. */
module Frontend {
  import opened Text

  // ---------------------------------------------------------------------------
  // Utils.formatPhoneNumber
  // ---------------------------------------------------------------------------

  predicate AllDigits(s: string) {
    forall i :: 0 <= i < |s| ==> IsAsciiDigit(s[i])
  }

  /** phone.replace(/\D/g, ''): the ASCII digits of the input, in order. */
  function Digits(s: string): (d: string)
    ensures |d| <= |s|
    ensures AllDigits(d)
  {
    if s == [] then [] else (if IsAsciiDigit(s[0]) then [s[0]] else []) + Digits(s[1..])
  }

  /** One character: a digit is kept, anything else is removed. With
      DigitsAppend this fixes Digits on every input. */
  lemma DigitsOfChar(c: char)
    ensures Digits([c]) == (if IsAsciiDigit(c) then [c] else [])
  {
    assert [c][1..] == [];
  }

  /** Every digit keeps its number of occurrences; nothing else is left. */
  lemma {:induction false} DigitsCounts(s: string)
    ensures forall c :: IsAsciiDigit(c) ==> multiset(Digits(s))[c] == multiset(s)[c]
    ensures forall c :: !IsAsciiDigit(c) ==> c !in Digits(s)
  {
    if s != [] {
      DigitsCounts(s[1..]);
      assert s == [s[0]] + s[1..];
      assert multiset(s) == multiset{s[0]} + multiset(s[1..]);
    }
  }

  lemma {:induction false} DigitsAppend(a: string, b: string)
    ensures Digits(a + b) == Digits(a) + Digits(b)
  {
    if a == [] {
      assert a + b == b;
    } else {
      assert (a + b)[0] == a[0];
      assert (a + b)[1..] == a[1..] + b;
      DigitsAppend(a[1..], b);
    }
  }

  /** Text made only of digits is its own digit string. */
  lemma {:induction false} DigitsOfDigits(s: string)
    requires AllDigits(s)
    ensures Digits(s) == s
  {
    if s != [] {
      DigitsOfDigits(s[1..]);
    }
  }

  /** cleaned.match(/^(\d{3})(\d{3})(\d{4})$/) succeeds. */
  predicate MatchesTenDigits(cleaned: string) {
    |cleaned| == 10 && AllDigits(cleaned)
  }

  /** Utils.formatPhoneNumber: exactly ten digits are laid out as
      "(ddd) ddd-dddd", keeping their order; anything else comes back as it was. */
  function FormatPhoneNumber(phone: string): (r: string)
    ensures |Digits(phone)| != 10 ==> r == phone
    ensures |Digits(phone)| == 10 ==> |r| == 14 && Digits(r) == Digits(phone)
  {
    var cleaned := Digits(phone);
    if MatchesTenDigits(cleaned) then
      LayoutDigits(cleaned);
      "(" + cleaned[..3] + ") " + cleaned[3..6] + "-" + cleaned[6..]
    else
      phone
  }

  /** Where the k-th of the ten digits lands in "(ddd) ddd-dddd". */
  function DigitSlot(k: nat): nat
    requires k < 10
  {
    if k < 3 then k + 1 else if k < 6 then k + 3 else k + 4
  }

  /** With exactly ten digits the result is the 14-character "(ddd) ddd-dddd",
      the digits in their original order in the slots, and nothing else is a digit. */
  lemma FormatPhoneTenDigits(phone: string)
    requires |Digits(phone)| == 10
    ensures var r := FormatPhoneNumber(phone); var d := Digits(phone);
      && |r| == 14
      && r[0] == '(' && r[4] == ')' && r[5] == ' ' && r[9] == '-'
      && (forall k :: 0 <= k < 10 ==> r[DigitSlot(k)] == d[k])
      && Digits(r) == d
  {
    var d := Digits(phone);
    LayoutSlots(d);
    LayoutDigits(d);
  }

  /** The layout puts the ten digits in their slots around the punctuation. */
  lemma LayoutSlots(d: string)
    requires |d| == 10
    ensures var r := "(" + d[..3] + ") " + d[3..6] + "-" + d[6..];
      && |r| == 14
      && r[0] == '(' && r[4] == ')' && r[5] == ' ' && r[9] == '-'
      && (forall k :: 0 <= k < 10 ==> r[DigitSlot(k)] == d[k])
  {
  }

  /** The layout adds no digit: reading the digits back gives d. */
  lemma {:induction false} LayoutDigits(d: string)
    requires |d| == 10 && AllDigits(d)
    ensures Digits("(" + d[..3] + ") " + d[3..6] + "-" + d[6..]) == d
  {
    var a := "(" + d[..3];
    var b := a + ") " + d[3..6];
    var c := b + "-";
    DigitsAppend(c, d[6..]);
    DigitsAppend(b, "-");
    DigitsAppend(a + ") ", d[3..6]);
    DigitsAppend(a, ") ");
    DigitsAppend("(", d[..3]);
    DigitsOfDigits(d[..3]);
    DigitsOfDigits(d[3..6]);
    DigitsOfDigits(d[6..]);
    assert Digits(") ") == [] && Digits("-") == [] && Digits("(") == [];
    assert d[..3] + d[3..6] + d[6..] == d;
  }

  /** Any other number of digits (an eleven-digit "+1 234 567 8901", say)
      gives the input back untouched. */
  lemma FormatPhoneOtherwiseUnchanged(phone: string)
    requires |Digits(phone)| != 10
    ensures FormatPhoneNumber(phone) == phone
  {
  }

  /** Formatting an already formatted number changes nothing. */
  lemma FormatPhoneIdempotent(phone: string)
    ensures FormatPhoneNumber(FormatPhoneNumber(phone)) == FormatPhoneNumber(phone)
  {
    if |Digits(phone)| == 10 {
      FormatPhoneTenDigits(phone);
      FormatPhoneTenDigits(FormatPhoneNumber(phone));
    }
  }

  // ---------------------------------------------------------------------------
  // Utils.validateEmail
  // ---------------------------------------------------------------------------

  /** One run of the regular-expression class [^\s@]+. */
  predicate IsEmailAtom(s: string) {
    |s| > 0 && forall i :: 0 <= i < |s| ==> !IsJsSpace(s[i]) && s[i] != '@'
  }

  /** An '@' at position at and a '.' at position dot cut e into three
      non-empty runs of [^\s@]. */
  predicate EmailSplitAt(e: string, at: int, dot: int) {
    && 0 < at && at + 1 < dot < |e| - 1
    && e[at] == '@' && e[dot] == '.'
    && IsEmailAtom(e[..at]) && IsEmailAtom(e[at + 1..dot]) && IsEmailAtom(e[dot + 1..])
  }

  /** The anchored pattern /^[^\s@]+@[^\s@]+\.[^\s@]+$/ matches e. */
  ghost predicate EmailPatternMatches(e: string) {
    exists at, dot :: EmailSplitAt(e, at, dot)
  }

  predicate NoJsSpace(s: string) {
    forall i :: 0 <= i < |s| ==> !IsJsSpace(s[i])
  }

  /** Position of the first occurrence of c. */
  function IndexOf(s: string, c: char): (k: nat)
    requires c in s
    ensures k < |s| && s[k] == c && c !in s[..k]
  {
    if s[0] == c then 0 else
      assert c in s[1..] by { var i :| 0 <= i < |s| && s[i] == c; assert s[1..][i - 1] == c; }
      var k := 1 + IndexOf(s[1..], c);
      assert s[..k] == [s[0]] + s[1..][..k - 1];
      k
  }

  /** The part after the '@' has a '.' that is neither its first nor its last character. */
  predicate HasInnerDot(domain: string) {
    |domain| >= 3 && '.' in domain[1..|domain| - 1]
  }

  /** Utils.validateEmail at the level of characters: no whitespace, exactly one
      '@' with text before it, and an inner '.' after it. */
  predicate ValidateEmail(email: string) {
    && NoJsSpace(email)
    && multiset(email)['@'] == 1
    && var at := IndexOf(email, '@');
       at > 0 && HasInnerDot(email[at + 1..])
  }

  /** A slice free of whitespace and '@' is an atom. */
  lemma AtomSlice(e: string, lo: nat, hi: nat)
    requires lo < hi <= |e|
    requires forall i :: lo <= i < hi ==> !IsJsSpace(e[i]) && e[i] != '@'
    ensures IsEmailAtom(e[lo..hi])
  {
    forall i | 0 <= i < hi - lo ensures !IsJsSpace(e[lo..hi][i]) && e[lo..hi][i] != '@' {
      assert e[lo..hi][i] == e[lo + i];
    }
  }

  /** With a single '@' in e, no other position holds one. */
  lemma OnlyAt(e: string, at: nat)
    requires at < |e| && e[at] == '@' && multiset(e)['@'] == 1
    ensures forall i :: 0 <= i < |e| && i != at ==> e[i] != '@'
  {
    var a, d := e[..at], e[at + 1..];
    assert e == a + [e[at]] + d;
    assert multiset(a)['@'] == 0 && multiset(d)['@'] == 0;
    forall i | 0 <= i < |e| && i != at ensures e[i] != '@' {
      if i < at { assert e[i] == a[i]; } else { assert e[i] == d[i - at - 1]; }
    }
  }

  /** Whatever the character-level check accepts, the pattern matches. */
  lemma ValidateEmailMatchesPattern(e: string)
    requires ValidateEmail(e)
    ensures EmailPatternMatches(e)
  {
    var at := IndexOf(e, '@');
    var d := e[at + 1..];
    var m :| 0 <= m < |d[1..|d| - 1]| && d[1..|d| - 1][m] == '.';
    var dot := at + 2 + m;
    assert e[dot] == d[m + 1] == '.';
    OnlyAt(e, at);
    AtomSlice(e, 0, at);
    assert e[0..at] == e[..at];
    AtomSlice(e, at + 1, dot);
    AtomSlice(e, dot + 1, |e|);
    assert e[dot + 1..|e|] == e[dot + 1..];
    assert EmailSplitAt(e, at, dot);
  }

  /** The first c is at k when c is at k and nowhere before. */
  lemma {:induction false} IndexOfIs(s: string, c: char, k: nat)
    requires k < |s| && s[k] == c
    requires forall i :: 0 <= i < k ==> s[i] != c
    ensures IndexOf(s, c) == k
  {
    if k > 0 {
      assert s[1..][k - 1] == c;
      IndexOfIs(s[1..], c, k - 1);
    }
  }

  /** What a match tells about the whole string. */
  lemma SplitFacts(e: string, at: int, dot: int)
    requires EmailSplitAt(e, at, dot)
    ensures NoJsSpace(e) && multiset(e)['@'] == 1
    ensures forall i :: 0 <= i < at ==> e[i] != '@'
  {
    var a, b, c := e[..at], e[at + 1..dot], e[dot + 1..];
    assert e == a + [e[at]] + b + [e[dot]] + c;
    assert '@' !in a && '@' !in b && '@' !in c;
    assert multiset(a)['@'] == 0 && multiset(b)['@'] == 0 && multiset(c)['@'] == 0;
    forall i | 0 <= i < |e| ensures !IsJsSpace(e[i]) && (i < at ==> e[i] != '@') {
      if i < at { assert e[i] == a[i]; }
      else if at < i < dot { assert e[i] == b[i - at - 1]; }
      else if dot < i { assert e[i] == c[i - dot - 1]; }
    }
  }

  /** Whatever the pattern matches, the character-level check accepts. */
  lemma PatternMatchesValidateEmail(e: string)
    requires EmailPatternMatches(e)
    ensures ValidateEmail(e)
  {
    var at, dot :| EmailSplitAt(e, at, dot);
    SplitFacts(e, at, dot);
    IndexOfIs(e, '@', at);
    var d := e[at + 1..];
    assert d[1..|d| - 1][dot - at - 2] == d[dot - at - 1] == '.';
  }

  /** The character-level check accepts exactly the strings the regular
      expression matches. */
  lemma ValidateEmailIsPattern(e: string)
    ensures ValidateEmail(e) <==> EmailPatternMatches(e)
  {
    if ValidateEmail(e) { ValidateEmailMatchesPattern(e); }
    if EmailPatternMatches(e) { PatternMatchesValidateEmail(e); }
  }

  /** The pattern refuses whitespace anywhere, a missing '@', and a second '@'. */
  lemma EmailPatternRejects(e: string)
    ensures !NoJsSpace(e) ==> !EmailPatternMatches(e)
    ensures '@' !in e ==> !EmailPatternMatches(e)
    ensures multiset(e)['@'] >= 2 ==> !EmailPatternMatches(e)
  {
    ValidateEmailIsPattern(e);
  }

  // ---------------------------------------------------------------------------
  // FormHandler.handleSubmit: the body it posts
  // ---------------------------------------------------------------------------

  const FormTypeKey := "form_type"
  const PriceCalculator := "price_calculator"

  /** Object.fromEntries(formData.entries()): a key seen twice keeps its later
      value; the keys are exactly those of the entries. */
  function FromEntries(entries: seq<(string, string)>): (m: map<string, string>)
    ensures m.Keys == set j | 0 <= j < |entries| :: entries[j].0
  {
    if entries == [] then map[]
    else
      var init := entries[..|entries| - 1];
      var last := entries[|entries| - 1];
      assert (set j | 0 <= j < |entries| :: entries[j].0)
          == (set j | 0 <= j < |init| :: init[j].0) + {last.0} by {
        forall j | 0 <= j < |init| ensures init[j].0 == entries[j].0 { }
      }
      FromEntries(init)[last.0 := last.1]
  }

  /** The value a key ends up with is the one from its last entry. */
  lemma {:induction false} FromEntriesLastWins(entries: seq<(string, string)>, key: string, i: nat)
    requires i < |entries| && entries[i].0 == key
    requires forall j :: i < j < |entries| ==> entries[j].0 != key
    ensures key in FromEntries(entries) && FromEntries(entries)[key] == entries[i].1
  {
    if i < |entries| - 1 {
      FromEntriesLastWins(entries[..|entries| - 1], key, i);
    }
  }

  /** A key no entry carries is absent. */
  lemma {:induction false} FromEntriesAbsent(entries: seq<(string, string)>, key: string)
    requires forall j :: 0 <= j < |entries| ==> entries[j].0 != key
    ensures key !in FromEntries(entries)
  {
    if entries != [] {
      FromEntriesAbsent(entries[..|entries| - 1], key);
    }
  }

  /** { ...data, form_type: 'price_calculator' }: the form's fields, with
      form_type forced to price_calculator whatever the form held. */
  function SubmitPayload(entries: seq<(string, string)>): (p: map<string, string>)
    ensures p.Keys == FromEntries(entries).Keys + {FormTypeKey}
    ensures p[FormTypeKey] == PriceCalculator
    ensures forall k :: k in FromEntries(entries) && k != FormTypeKey ==> p[k] == FromEntries(entries)[k]
  {
    FromEntries(entries)[FormTypeKey := PriceCalculator]
  }

  /** Every other field of the form reaches the payload with its last value. */
  lemma PayloadKeepsField(entries: seq<(string, string)>, key: string, i: nat)
    requires key != FormTypeKey
    requires i < |entries| && entries[i].0 == key
    requires forall j :: i < j < |entries| ==> entries[j].0 != key
    ensures key in SubmitPayload(entries) && SubmitPayload(entries)[key] == entries[i].1
  {
    FromEntriesLastWins(entries, key, i);
  }
}
