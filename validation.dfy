/** The backend's request validator (`validateBugData`) and string sanitiser
    (`sanitizeInput`). */
module Validation {
  import opened Js
  import opened Text

  const TitleMessage := "Title must be at least 3 characters"
  const DescriptionMessage := "Description must be at least 10 characters"
  const ReporterMessage := "Reporter name is required"
  const StatusMessage := "Invalid status value"
  const PriorityMessage := "Invalid priority value"

  /** Every message the validator can produce, in the order its rules run. */
  const RuleMessages := [TitleMessage, DescriptionMessage, ReporterMessage, StatusMessage, PriorityMessage]

  const ValidStatuses := ["open", "in-progress", "resolved"]
  const ValidPriorities := ["low", "medium", "high", "critical"]

  /** A request body as the validator and the create handler read it. */
  datatype BugInput = BugInput(
    title: Option<string>,
    description: Option<string>,
    reportedBy: Option<string>,
    status: Option<string>,
    priority: Option<string>,
    assignedTo: Option<string>)

  datatype ValidationResult = ValidationResult(isValid: bool, errors: seq<string>)

  /** `!field || field.trim().length < min`, where `length` counts UTF-16
      code units. A falsy field always fails; so does one already shorter
      than `min` before trimming. */
  predicate TooShort(field: Option<string>, min: nat): (r: bool)
    ensures !Truthy(field) ==> r
    ensures Truthy(field) && Utf16Length(field.value) < min ==> r
  {
    !Truthy(field) || (TrimShortensUtf16(field.value); Utf16Length(Trim(field.value)) < min)
  }

  /** `!field || field.trim().length === 0`: the length rule with bound 1. */
  predicate Blank(field: Option<string>): (r: bool)
    ensures r <==> TooShort(field, 1)
  {
    !Truthy(field) || |Trim(field.value)| == 0
  }

  /** `field && !allowed.includes(field)`: only a truthy value is checked,
      so an absent or empty one, or a listed one, never fails. */
  predicate OutsideEnum(field: Option<string>, allowed: seq<string>): (r: bool)
    ensures !Truthy(field) ==> !r
    ensures field.Some? && field.value in allowed ==> !r
  {
    Truthy(field) && field.value !in allowed
  }

  /** Position of a message in `RuleMessages` (5 for any other string). */
  function RuleIndex(m: string): nat
  {
    if m == TitleMessage then 0
    else if m == DescriptionMessage then 1
    else if m == ReporterMessage then 2
    else if m == StatusMessage then 3
    else if m == PriorityMessage then 4
    else 5
  }

  /** The five messages are pairwise different; each has its own rank. */
  lemma RuleIndexOfMessages()
    ensures RuleIndex(TitleMessage) == 0 && RuleIndex(DescriptionMessage) == 1
    ensures RuleIndex(ReporterMessage) == 2 && RuleIndex(StatusMessage) == 3
    ensures RuleIndex(PriorityMessage) == 4
  {
    assert TitleMessage[0] == 'T' && DescriptionMessage[0] == 'D' && ReporterMessage[0] == 'R';
    assert StatusMessage[0] == 'I' && PriorityMessage[0] == 'I';
    assert StatusMessage[8] == 's' && PriorityMessage[8] == 'p';
  }

  /** `errors` holds rule messages only, strictly in rule order. */
  ghost predicate InRuleOrder(errors: seq<string>)
  {
    && (forall i :: 0 <= i < |errors| ==> errors[i] in RuleMessages)
    && (forall i, j :: 0 <= i < j < |errors| ==> RuleIndex(errors[i]) < RuleIndex(errors[j]))
  }

  /** One rule of the validator: `if (failed) errors.push(message)`. */
  function Push(errors: seq<string>, failed: bool, message: string): seq<string>
  {
    if failed then errors + [message] else errors
  }

  /** Pushing the message of rule `k` onto a list that only holds messages of
      earlier rules keeps rule order. */
  lemma PushKeepsOrder(errors: seq<string>, failed: bool, k: nat)
    requires k < |RuleMessages|
    requires InRuleOrder(errors)
    requires forall i :: 0 <= i < |errors| ==> RuleIndex(errors[i]) < k
    ensures InRuleOrder(Push(errors, failed, RuleMessages[k]))
    ensures forall i :: 0 <= i < |Push(errors, failed, RuleMessages[k])| ==>
              RuleIndex(Push(errors, failed, RuleMessages[k])[i]) < k + 1
  {
    RuleIndexOfMessages();
  }

  /** ... and adds that message exactly when the rule failed, it being absent before. */
  lemma PushAddsOnFailure(errors: seq<string>, failed: bool, k: nat)
    requires k < |RuleMessages|
    requires forall i :: 0 <= i < |errors| ==> RuleIndex(errors[i]) < k
    ensures forall m :: m in Push(errors, failed, RuleMessages[k]) <==> m in errors || (failed && m == RuleMessages[k])
    ensures RuleMessages[k] !in errors
  {
    RuleIndexOfMessages();
  }

  /** The pushes of `validateBugData`, given which of its five rules failed:
      every failed rule's message appears, no other, in rule order. */
  function CollectErrors(title: bool, description: bool, reporter: bool, status: bool, priority: bool): (e: seq<string>)
    ensures TitleMessage in e <==> title
    ensures DescriptionMessage in e <==> description
    ensures ReporterMessage in e <==> reporter
    ensures StatusMessage in e <==> status
    ensures PriorityMessage in e <==> priority
    ensures e == [] <==> !(title || description || reporter || status || priority)
    ensures InRuleOrder(e)
  {
    var e0 := [];
    var e1 := Push(e0, title, TitleMessage);
    var e2 := Push(e1, description, DescriptionMessage);
    var e3 := Push(e2, reporter, ReporterMessage);
    var e4 := Push(e3, status, StatusMessage);
    var e5 := Push(e4, priority, PriorityMessage);
    PushKeepsOrder(e0, title, 0);
    PushAddsOnFailure(e0, title, 0);
    PushKeepsOrder(e1, description, 1);
    PushAddsOnFailure(e1, description, 1);
    PushKeepsOrder(e2, reporter, 2);
    PushAddsOnFailure(e2, reporter, 2);
    PushKeepsOrder(e3, status, 3);
    PushAddsOnFailure(e3, status, 3);
    PushKeepsOrder(e4, priority, 4);
    PushAddsOnFailure(e4, priority, 4);
    e5
  }

  /** `validateBugData`: the five checks run independently and every failure is
      reported, once, in rule order; the data is valid exactly when none failed. */
  function ValidateBugData(data: BugInput): (r: ValidationResult)
    ensures r.isValid <==> r.errors == []
    ensures TitleMessage in r.errors <==> TooShort(data.title, 3)
    ensures DescriptionMessage in r.errors <==> TooShort(data.description, 10)
    ensures ReporterMessage in r.errors <==> Blank(data.reportedBy)
    ensures StatusMessage in r.errors <==> OutsideEnum(data.status, ValidStatuses)
    ensures PriorityMessage in r.errors <==> OutsideEnum(data.priority, ValidPriorities)
    ensures InRuleOrder(r.errors)
  {
    var errors := CollectErrors(
      TooShort(data.title, 3),
      TooShort(data.description, 10),
      Blank(data.reportedBy),
      OutsideEnum(data.status, ValidStatuses),
      OutsideEnum(data.priority, ValidPriorities));
    ValidationResult(|errors| == 0, errors)
  }

  /** Any list in rule order has at most one entry per rule and no repeats. */
  lemma {:induction false} RuleOrderedErrorsAreFewAndDistinct(errors: seq<string>)
    requires InRuleOrder(errors)
    ensures |errors| <= |RuleMessages|
    ensures forall i, j :: 0 <= i < j < |errors| ==> errors[i] != errors[j]
  {
    if errors != [] {
      var last := |errors| - 1;
      RuleOrderedErrorsAreFewAndDistinct(errors[..last]);
      assert errors[last] in RuleMessages;
      assert RuleIndex(errors[last]) <= 4;
      RanksBelow(errors[..last], RuleIndex(errors[last]));
    }
  }

  /** A strictly increasing run of ranks all below `bound` is at most `bound` long. */
  lemma {:induction false} RanksBelow(errors: seq<string>, bound: nat)
    requires forall i, j :: 0 <= i < j < |errors| ==> RuleIndex(errors[i]) < RuleIndex(errors[j])
    requires forall i :: 0 <= i < |errors| ==> RuleIndex(errors[i]) < bound
    ensures |errors| <= bound
  {
    if errors != [] {
      var last := |errors| - 1;
      RanksBelow(errors[..last], RuleIndex(errors[last]));
    }
  }

  /** The validator never reports more than five errors, and never one twice. */
  lemma ValidationErrorsAreFewAndDistinct(data: BugInput)
    ensures |ValidateBugData(data).errors| <= 5
    ensures var e := ValidateBugData(data).errors;
            forall i, j :: 0 <= i < j < |e| ==> e[i] != e[j]
  {
    RuleOrderedErrorsAreFewAndDistinct(ValidateBugData(data).errors);
  }

  /** A field with no whitespace at either end passes a length rule when its
      own length does. */
  lemma UntrimmedFieldPasses(s: string, min: nat)
    requires s != [] && !IsWhitespace(s[0]) && !IsWhitespace(s[|s| - 1]) && Utf16Length(s) >= min
    ensures !TooShort(Some(s), min) && !Blank(Some(s))
  {
    TrimOfTrimmed(s);
  }

  /** A record whose required fields are long enough and carry no surrounding
      whitespace, and which leaves status and priority unset, is valid. */
  lemma WellFormedRecordIsValid(data: BugInput)
    requires data.title.Some? && data.description.Some? && data.reportedBy.Some?
    requires var t := data.title.value; Utf16Length(t) >= 3 && !IsWhitespace(t[0]) && !IsWhitespace(t[|t| - 1])
    requires var d := data.description.value; Utf16Length(d) >= 10 && !IsWhitespace(d[0]) && !IsWhitespace(d[|d| - 1])
    requires var p := data.reportedBy.value; p != [] && !IsWhitespace(p[0]) && !IsWhitespace(p[|p| - 1])
    requires data.status.None? && data.priority.None?
    ensures ValidateBugData(data) == ValidationResult(true, [])
  {
    UntrimmedFieldPasses(data.title.value, 3);
    UntrimmedFieldPasses(data.description.value, 10);
    UntrimmedFieldPasses(data.reportedBy.value, 1);
  }

  /** A title under three UTF-16 code units, a description under ten and an
      empty reporter are all reported, in rule order, when status and
      priority are unset. */
  lemma ShortFieldsReportThreeErrors(title: string, description: string)
    requires Utf16Length(title) < 3 && Utf16Length(description) < 10
    ensures ValidateBugData(BugInput(Some(title), Some(description), Some(""), None, None, None))
         == ValidationResult(false, [TitleMessage, DescriptionMessage, ReporterMessage])
  {
    var e3 := Push(Push(Push([], true, TitleMessage), true, DescriptionMessage), true, ReporterMessage);
    assert e3 == [TitleMessage, DescriptionMessage, ReporterMessage];
    assert CollectErrors(true, true, true, false, false) == Push(Push(e3, false, StatusMessage), false, PriorityMessage);
  }

  /** Two characters outside the Basic Multilingual Plane are four code units
      long, so they make a title that passes its rule. */
  lemma AstralPairPassesTitleRule(c: char, d: char)
    requires c > '\U{FFFF}' && d > '\U{FFFF}'
    ensures !TooShort(Some([c, d]), 3)
  {
    assert [c, d][1..] == [d] && [d][1..] == [];
    assert Utf16Length([c, d]) == 4;
    UntrimmedFieldPasses([c, d], 3);
  }

  // ---------------------------------------------------------------------
  // Sanitiser

  predicate IsBracket(c: char)
  {
    c == '<' || c == '>'
  }

  predicate BracketFree(s: string)
  {
    forall i :: 0 <= i < |s| ==> !IsBracket(s[i])
  }

  /** `s.replace(/[<>]/g, '')` */
  function StripBrackets(s: string): (r: string)
    ensures BracketFree(r)
    ensures |r| <= |s|
  {
    if s == [] then []
    else (if IsBracket(s[0]) then [] else [s[0]]) + StripBrackets(s[1..])
  }

  /** `a` can be obtained from `b` by deleting characters. */
  ghost predicate IsSubsequence(a: string, b: string)
    decreases |b|
  {
    a == [] || (b != [] && if a[0] == b[0] then IsSubsequence(a[1..], b[1..]) else IsSubsequence(a, b[1..]))
  }

  /** `sanitizeInput` on a string: trim first, then delete every `<` and `>`. */
  function SanitizeString(s: string): (r: string)
    ensures BracketFree(r)
    ensures |r| <= |Trim(s)| <= |s|
  {
    StripBrackets(Trim(s))
  }

  /** `sanitizeInput`: strings are sanitised, every other value is returned as it is. */
  function SanitizeInput(input: JsValue): (r: JsValue)
    ensures !input.JsString? ==> r == input
    ensures input.JsString? ==> r.JsString? && BracketFree(r.s) && |r.s| <= |input.s|
  {
    match input
    case JsString(s) => JsString(SanitizeString(s))
    case _ => input
  }

  /** Deleting brackets only deletes: the result is a subsequence of the input. */
  lemma {:induction false} StripBracketsIsSubsequence(s: string)
    ensures IsSubsequence(StripBrackets(s), s)
  {
    if s != [] {
      StripBracketsIsSubsequence(s[1..]);
      var rest := StripBrackets(s[1..]);
      if IsBracket(s[0]) {
        assert StripBrackets(s) == rest;
        assert rest != [] ==> rest[0] != s[0];
      } else {
        assert StripBrackets(s) == [s[0]] + rest;
        assert ([s[0]] + rest)[1..] == rest;
      }
    }
  }

  /** Deleting brackets deletes every bracket and nothing else: every other
      character keeps its number of occurrences. */
  lemma {:induction false} StripBracketsCounts(s: string, c: char)
    ensures IsBracket(c) ==> multiset(StripBrackets(s))[c] == 0
    ensures !IsBracket(c) ==> multiset(StripBrackets(s))[c] == multiset(s)[c]
  {
    if s != [] {
      StripBracketsCounts(s[1..], c);
      assert s == [s[0]] + s[1..];
      assert multiset(s) == multiset([s[0]]) + multiset(s[1..]);
    }
  }

  /** A bracket-free string is left as it is. */
  lemma {:induction false} StripBracketsOfBracketFree(s: string)
    requires BracketFree(s)
    ensures StripBrackets(s) == s
  {
    if s != [] {
      StripBracketsOfBracketFree(s[1..]);
    }
  }

  /** A string of brackets only is deleted entirely. */
  lemma {:induction false} StripOnlyBrackets(s: string)
    requires forall i :: 0 <= i < |s| ==> IsBracket(s[i])
    ensures StripBrackets(s) == []
  {
    if s != [] {
      StripOnlyBrackets(s[1..]);
    }
  }

  /** The sanitised string is a subsequence of the trimmed input. */
  lemma SanitizeIsSubsequenceOfTrim(s: string)
    ensures IsSubsequence(SanitizeString(s), Trim(s))
  {
    StripBracketsIsSubsequence(Trim(s));
  }

  /** On bracket-free input sanitising is just trimming. */
  lemma SanitizeBracketFreeIsTrim(s: string)
    requires BracketFree(s)
    ensures SanitizeString(s) == Trim(s)
  {
    var t := Trim(s);
    var lo := |s| - |TrimStart(s)|;
    assert lo + |t| <= |s| && t == s[lo..lo + |t|] by {
      TrimIsInterior(s);
    }
    assert BracketFree(t) by {
      forall i | 0 <= i < |t|
        ensures !IsBracket(t[i])
      {
        assert t[i] == s[lo + i];
      }
    }
    StripBracketsOfBracketFree(t);
  }

  /** Surrounding spaces are removed, as in the unit tests' `'  Hello World  '`. */
  lemma SanitizeTrimsPadding(w: string)
    requires w != [] && BracketFree(w) && !IsWhitespace(w[0]) && !IsWhitespace(w[|w| - 1])
    ensures SanitizeString("  " + w + "  ") == w
  {
    var s := "  " + w + "  ";
    TrimStartSkips(s, 2);
    var t := s[2..];
    assert t == w + "  ";
    TrimEndSkips(t, 2);
    assert t[..|t| - 2] == w;
    StripBracketsOfBracketFree(w);
  }

  /** Deleting the bracket of `c + " <"` leaves the space before it. */
  lemma StripShieldedSpace(c: char)
    requires !IsBracket(c)
    ensures StripBrackets([c, ' ', '<']) == [c, ' ']
  {
    var s := [c, ' ', '<'];
    assert s[1..] == [' ', '<'] && s[1..][1..] == ['<'];
    assert StripBrackets(['<']) == [];
    assert StripBrackets([' ', '<']) == [' '];
  }

  /** Because trimming happens before brackets are deleted, a space that a
      trailing bracket shielded from `trim` survives: `"a <"` becomes `"a "`. */
  lemma SanitizeCanLeaveTrailingSpace(c: char)
    requires !IsWhitespace(c) && !IsBracket(c)
    ensures SanitizeString([c, ' ', '<']) == [c, ' ']
  {
    var s := [c, ' ', '<'];
    assert !IsWhitespace(s[0]) && !IsWhitespace(s[2]);
    assert Trim(s) == s by {
      TrimOfTrimmed(s);
    }
    StripShieldedSpace(c);
  }
}
