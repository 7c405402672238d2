/** The candidate-name rule chain of `validate_name`: strip, then reject an
    empty name, then a name with a space, then a name with a non-letter. */
module Validator {
  import opened Strings

  datatype NameError = EmptyName | ContainsSpace | NotOnlyLetters

  /** The message `validate_name` returns for each rejection. */
  function Message(e: NameError): string {
    match e
    case EmptyName => "名称不能为空"
    case ContainsSpace => "名称不能包含空格"
    case NotOnlyLetters => "名称只能包含英文字母"
  }

  /** `(True, name)` or `(False, message)`. */
  datatype Validation = Accepted(name: string) | Rejected(error: NameError)

  /** The letter test behind `str.isalpha`, restricted to ASCII letters. */
  predicate IsLetter(c: char) {
    ('a' <= c <= 'z') || ('A' <= c <= 'Z')
  }

  predicate AllLetters(s: string) {
    forall i :: 0 <= i < |s| ==> IsLetter(s[i])
  }

  /** What every accepted name satisfies. */
  ghost predicate WellFormedName(s: string) {
    s != [] && ' ' !in s && AllLetters(s)
  }

  function ValidateName(raw: string): (r: Validation)
    ensures r.Accepted? <==> WellFormedName(Strip(raw))
    ensures r.Accepted? ==> r.name == Strip(raw)
    ensures r == Rejected(EmptyName) <==> AllWhitespace(raw)
    ensures r == Rejected(ContainsSpace) <==> Strip(raw) != [] && ' ' in Strip(raw)
    ensures r == Rejected(NotOnlyLetters) <==>
              Strip(raw) != [] && ' ' !in Strip(raw) && !AllLetters(Strip(raw))
  {
    var name := Strip(raw);
    if name == [] then Rejected(EmptyName)
    else if ' ' in name then Rejected(ContainsSpace)
    else if !AllLetters(name) then Rejected(NotOnlyLetters)
    else Accepted(name)
  }

  /** Validating an accepted name accepts it again, unchanged. */
  lemma ValidateIdempotent(raw: string)
    requires ValidateName(raw).Accepted?
    ensures ValidateName(ValidateName(raw).name) == ValidateName(raw)
  {
    var name := ValidateName(raw).name;
    assert name == [] + name + [];
    StripOfPadded([], name, []);
  }

  /** The space rule is checked before the letter rule. */
  lemma SpaceReportedBeforeLetters()
    ensures ValidateName(" a 1 ") == Rejected(ContainsSpace)
  {
    var raw := " a 1 ";
    assert raw == " " + "a 1" + " ";
    StripOfPadded(" ", "a 1", " ");
    assert "a 1"[1] == ' ';
  }

  /** An internal tab is not a space but is not a letter either. */
  lemma TabIsNotALetter()
    ensures ValidateName("a\tb") == Rejected(NotOnlyLetters)
  {
    assert "a\tb" == [] + "a\tb" + [];
    StripOfPadded([], "a\tb", []);
    assert !IsLetter("a\tb"[1]);
  }
}
