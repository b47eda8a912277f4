/**
 * The contact form's fields and the rule each field's value must satisfy
 * (components/contact.tsx, `validateField`), plus the phone reformatter
 * `formatPhone`. The two regular expressions of the source are written out
 * as predicates that follow the expressions' structure; `EmailPatternIff` and
 * `PhonePatternIff` tie each to a plainer description of the strings it
 * accepts.
 */
module ContactRules {
  import opened Wrappers
  import opened JsText

  /** The four inputs of the form, in the key order of the initial `formData`. */
  datatype Field = Name | Email | Phone | Message

  const FieldOrder: seq<Field> := [Name, Email, Phone, Message]

  /** The form-level key of the errors map, used for a failed submission. */
  const FormKey: string := "form"

  const FailureText: string := "Submission failed. Try again."

  /** The key under which a field's value and error are stored. */
  function Key(f: Field): (k: string)
    ensures FieldOf(k) == Some(f)
    ensures k != FormKey
  {
    match f
    case Name => "name"
    case Email => "email"
    case Phone => "phone"
    case Message => "message"
  }

  /** The `switch (name)` of `validateField`: which field, if any, a name denotes. */
  function FieldOf(k: string): Option<Field> {
    if k == "name" then Some(Name)
    else if k == "email" then Some(Email)
    else if k == "phone" then Some(Phone)
    else if k == "message" then Some(Message)
    else None
  }

  /** Field names and keys are in one-to-one correspondence. */
  lemma FieldOfKey(k: string, f: Field)
    ensures FieldOf(k) == Some(f) <==> k == Key(f)
  {
  }

  /** Where a field's key stands in `Object.keys(formData)`. */
  function Position(f: Field): (i: nat)
    ensures i < |FieldOrder| && FieldOrder[i] == f
  {
    match f
    case Name => 0
    case Email => 1
    case Phone => 2
    case Message => 3
  }

  /** The message recorded when a field fails its rule. */
  function ErrorText(f: Field): (t: string)
    ensures t != []
  {
    match f
    case Name => "Name required"
    case Email => "Valid email required"
    case Phone => "Valid phone required"
    case Message => "Message required"
  }

  // ---------------------------------------------------------------- name, message

  /** `value.trim()` is non-empty. */
  predicate Filled(v: string) {
    Trim(v) != []
  }

  lemma FilledIff(v: string)
    ensures Filled(v) <==> exists i :: 0 <= i < |v| && !IsWhitespace(v[i])
  {
  }

  // ---------------------------------------------------------------- email

  /** One character of the class `[^\s@]`. */
  predicate EmailAtom(c: char) {
    !IsWhitespace(c) && c != '@'
  }

  /** A match of `[^\s@]+`. */
  predicate Atoms(s: string) {
    |s| > 0 && forall i :: 0 <= i < |s| ==> EmailAtom(s[i])
  }

  /**
   * `^[^\s@]+@[^\s@]+\.[^\s@]+$` matches with the `@` at index `a` and the
   * literal `.` at index `d`.
   */
  predicate EmailMatchAt(s: string, a: int, d: int) {
    && 0 < a && a + 1 < d && d + 1 < |s|
    && s[a] == '@' && s[d] == '.'
    && Atoms(s[..a]) && Atoms(s[a + 1..d]) && Atoms(s[d + 1..])
  }

  /** The email rule: the expression matches for some choice of `@` and `.`. */
  predicate EmailPattern(s: string) {
    exists a, d | 0 <= a < |s| && 0 <= d < |s| :: EmailMatchAt(s, a, d)
  }

  /**
   * The accepted addresses described without the expression: no white space,
   * exactly one `@` with something before it, and a `.` in the part after the
   * `@` with text on both of its sides.
   */
  predicate EmailShape(s: string) {
    && (forall i :: 0 <= i < |s| ==> !IsWhitespace(s[i]))
    && exists a | 0 < a < |s| ::
         && s[a] == '@'
         && (forall i :: 0 <= i < |s| && i != a ==> s[i] != '@')
         && exists d | a + 1 < d < |s| - 1 :: s[d] == '.'
  }

  lemma EmailPatternIff(s: string)
    ensures EmailPattern(s) <==> EmailShape(s)
  {
    if EmailPattern(s) {
      var a, d :| 0 <= a < |s| && 0 <= d < |s| && EmailMatchAt(s, a, d);
      EmailMatchShape(s, a, d);
    }
    if EmailShape(s) {
      var a :| 0 < a < |s| && s[a] == '@'
        && (forall i :: 0 <= i < |s| && i != a ==> s[i] != '@')
        && exists d | a + 1 < d < |s| - 1 :: s[d] == '.';
      var d :| a + 1 < d < |s| - 1 && s[d] == '.';
      EmailShapeMatch(s, a, d);
    }
  }

  lemma EmailMatchShape(s: string, a: int, d: int)
    requires EmailMatchAt(s, a, d)
    ensures EmailShape(s)
  {
    forall i | 0 <= i < |s|
      ensures !IsWhitespace(s[i]) && (i != a ==> s[i] != '@')
    {
      if i < a {
        assert s[i] == s[..a][i];
      } else if a < i < d {
        assert s[i] == s[a + 1..d][i - (a + 1)];
      } else if d < i {
        assert s[i] == s[d + 1..][i - (d + 1)];
      }
    }
  }

  lemma EmailShapeMatch(s: string, a: int, d: int)
    requires forall i :: 0 <= i < |s| ==> !IsWhitespace(s[i])
    requires 0 < a < |s| && s[a] == '@'
    requires forall i :: 0 <= i < |s| && i != a ==> s[i] != '@'
    requires a + 1 < d < |s| - 1 && s[d] == '.'
    ensures EmailMatchAt(s, a, d)
  {
    forall i | 0 <= i < a
      ensures EmailAtom(s[..a][i])
    {
      assert s[..a][i] == s[i];
    }
    var host := s[a + 1..d];
    forall i | 0 <= i < |host|
      ensures EmailAtom(host[i])
    {
      assert host[i] == s[i + a + 1];
    }
    var tld := s[d + 1..];
    forall i | 0 <= i < |tld|
      ensures EmailAtom(tld[i])
    {
      assert tld[i] == s[i + d + 1];
    }
  }

  /** The two addresses of the rule's description: `a@b.co` passes and `a@b` does not. */
  lemma EmailExamples()
    ensures EmailPattern("a@b.co")
    ensures !EmailPattern("a@b")
  {
    assert EmailMatchAt("a@b.co", 1, 3);
  }

  // ---------------------------------------------------------------- phone

  /** One character of the class `[0-9\s-]`. */
  predicate PhoneChar(c: char) {
    IsDigit(c) || IsWhitespace(c) || c == '-'
  }

  /** A match of `[0-9\s-]{7,15}`. */
  predicate PhoneBody(t: string) {
    7 <= |t| <= 15 && forall i :: 0 <= i < |t| ==> PhoneChar(t[i])
  }

  /** `^\+?[0-9\s-]{7,15}$`. */
  predicate PhonePattern(s: string) {
    PhoneBody(s) || (|s| > 0 && s[0] == '+' && PhoneBody(s[1..]))
  }

  /** Characters `plus` onwards are 7 to 15 digits, white space or dashes. */
  predicate PhoneDigitsFrom(s: string, plus: nat) {
    && plus + 7 <= |s| <= plus + 15
    && forall i :: plus <= i < |s| ==> PhoneChar(s[i])
  }

  /**
   * The accepted numbers described without the expression: a `+` may stand
   * only in front, and the characters after it are 7 to 15 digits, white
   * space or dashes.
   */
  predicate PhoneShape(s: string) {
    if |s| > 0 && s[0] == '+' then PhoneDigitsFrom(s, 1) else PhoneDigitsFrom(s, 0)
  }

  /**
   * The two alternatives of the expression never overlap: a leading `+` is not
   * a character of the class, so it must be the optional prefix.
   */
  lemma PhonePatternIff(s: string)
    ensures PhonePattern(s) <==> PhoneShape(s)
  {
    if |s| > 0 && s[0] == '+' {
      assert !PhoneBody(s) by {
        assert !PhoneChar(s[0]);
      }
      var t := s[1..];
      assert forall i :: 0 <= i < |t| ==> t[i] == s[i + 1];
      if PhoneDigitsFrom(s, 1) {
        assert forall i :: 0 <= i < |t| ==> PhoneChar(t[i]);
      }
      if PhoneBody(t) {
        forall i | 1 <= i < |s|
          ensures PhoneChar(s[i])
        {
          assert s[i] == t[i - 1];
        }
      }
    }
  }

  /** `+91 81253 42924` passes the phone rule; six digits and a word do not. */
  lemma PhoneExamples()
    ensures PhonePattern("+91 81253 42924")
    ensures !PhonePattern("123456")
    ensures !PhonePattern("call me")
  {
    PhonePatternIff("+91 81253 42924");
    PhonePatternIff("123456");
    PhonePatternIff("call me");
    assert !PhoneChar("call me"[0]);
  }

  // ---------------------------------------------------------------- all rules

  /** Whether a value passes the rule of its field. */
  predicate Valid(f: Field, v: string) {
    match f
    case Name => Filled(v)
    case Email => EmailPattern(v)
    case Phone => PhonePattern(v)
    case Message => Filled(v)
  }

  /**
   * The four rules of the `switch`, each through its plain description: the
   * name and the message need a character outside white space, the email and
   * the phone their shapes.
   */
  lemma ValidIff(f: Field, v: string)
    ensures Valid(f, v) <==>
              match f
              case Name => exists i :: 0 <= i < |v| && !IsWhitespace(v[i])
              case Email => EmailShape(v)
              case Phone => PhoneShape(v)
              case Message => exists i :: 0 <= i < |v| && !IsWhitespace(v[i])
  {
    match f
    case Name => FilledIff(v);
    case Email => EmailPatternIff(v);
    case Phone => PhonePatternIff(v);
    case Message => FilledIff(v);
  }

  /** The empty value fails every rule, so a cleared form is an invalid form. */
  lemma EmptyFailsEveryRule(f: Field)
    ensures !Valid(f, "")
  {
  }

  // ---------------------------------------------------------------- formatPhone

  /** `+CC DDDDD DDDDD` for twelve digits. */
  function Grouped(d: string): string
    requires |d| == 12
  {
    "+" + d[..2] + " " + d[2..7] + " " + d[7..]
  }

  /**
   * `formatPhone`: every non-digit is removed and, when exactly twelve digits
   * remain, they are regrouped as `+CC DDDDD DDDDD`.
   */
  function FormatPhone(raw: string): (r: string)
    ensures |Digits(raw)| == 12 ==>
              |r| == 15 && r[0] == '+' && r[3] == ' ' && r[9] == ' '
              && r[1..3] == Digits(raw)[..2] && r[4..9] == Digits(raw)[2..7] && r[10..] == Digits(raw)[7..]
    ensures |Digits(raw)| != 12 ==> r == Digits(raw) && AllDigits(r)
  {
    var d := Digits(raw);
    if |d| == 12 then Grouped(d) else d
  }

  /** Formatting neither loses nor invents a digit. */
  lemma FormatPhoneKeepsDigits(raw: string)
    ensures Digits(FormatPhone(raw)) == Digits(raw)
  {
    var d := Digits(raw);
    if |d| == 12 {
      GroupedKeepsDigits(d);
    } else {
      DigitsOfDigits(d);
    }
  }

  lemma GroupedKeepsDigits(d: string)
    requires |d| == 12 && AllDigits(d)
    ensures Digits(Grouped(d)) == d
  {
    var p, s1, s2 := d[..2], d[2..7], d[7..];
    DigitsOfSlice(d, 0, 2);
    DigitsOfSlice(d, 2, 7);
    DigitsOfSlice(d, 7, 12);
    assert d[7..12] == s2;
    DigitsOfGroup(p, s1, s2);
    assert p + s1 + s2 == d;
  }

  lemma DigitsOfSlice(d: string, i: nat, j: nat)
    requires i <= j <= |d| && AllDigits(d)
    ensures Digits(d[i..j]) == d[i..j]
  {
    forall k | 0 <= k < j - i
      ensures IsDigit(d[i..j][k])
    {
      assert d[i..j][k] == d[i + k];
    }
    DigitsOfDigits(d[i..j]);
  }

  lemma DigitsOfGroup(p: string, s1: string, s2: string)
    requires Digits(p) == p && Digits(s1) == s1 && Digits(s2) == s2
    ensures Digits("+" + p + " " + s1 + " " + s2) == p + s1 + s2
  {
    var plus, space := "+", " ";
    assert Digits(plus) == [] && Digits(space) == [];
    DigitsOfSeparated(p, s1, s2, plus, space);
  }

  lemma DigitsOfSeparated(p: string, s1: string, s2: string, plus: string, space: string)
    requires Digits(p) == p && Digits(s1) == s1 && Digits(s2) == s2
    requires Digits(plus) == [] && Digits(space) == []
    ensures Digits(plus + p + space + s1 + space + s2) == p + s1 + s2
  {
    DigitsOfSix(plus, p, space, s1, space, s2);
    DropEmpty(Digits(plus), Digits(p), Digits(space), Digits(s1), Digits(s2));
  }

  lemma DropEmpty(x: string, a: string, y: string, b: string, c: string)
    requires x == [] && y == []
    ensures x + a + y + b + y + c == a + b + c
  {
  }

  lemma DigitsOfSix(a: string, b: string, c: string, d: string, e: string, f: string)
    ensures Digits(a + b + c + d + e + f)
         == Digits(a) + Digits(b) + Digits(c) + Digits(d) + Digits(e) + Digits(f)
  {
    DigitsAppend(a, b);
    DigitsAppend(a + b, c);
    DigitsAppend(a + b + c, d);
    DigitsAppend(a + b + c + d, e);
    DigitsAppend(a + b + c + d + e, f);
  }

  /** Formatting an already formatted value changes nothing. */
  lemma FormatPhoneIdempotent(raw: string)
    ensures FormatPhone(FormatPhone(raw)) == FormatPhone(raw)
  {
    FormatPhoneKeepsDigits(raw);
    DigitsOfDigits(Digits(raw));
  }

  /**
   * A value `formatPhone` produces passes the phone rule exactly when the typed
   * text held 7 to 15 digits; the regrouped twelve-digit form passes too.
   */
  lemma FormatPhonePassesRule(raw: string)
    ensures PhonePattern(FormatPhone(raw)) <==> 7 <= |Digits(raw)| <= 15
  {
    var r := FormatPhone(raw);
    var d := Digits(raw);
    if |d| == 12 {
      var t := r[1..];
      assert |t| == 14;
      forall i | 0 <= i < |t|
        ensures PhoneChar(t[i])
      {
        if i == 2 || i == 8 {
        } else if i < 2 {
          assert t[i] == r[1..3][i] == d[i];
        } else if i < 8 {
          assert t[i] == r[4..9][i - 3] == d[i - 1];
        } else {
          assert t[i] == r[10..][i - 9] == d[i - 2];
        }
      }
      assert PhoneBody(t);
    } else {
      if |r| > 0 {
        assert IsDigit(r[0]);
      }
    }
  }

  /** The worked example: `918125342924` becomes `+91 81253 42924`. */
  lemma FormatPhoneExample()
    ensures FormatPhone("918125342924") == "+91 81253 42924"
  {
    ExampleDigits();
    ExampleGrouped();
  }

  lemma ExampleDigits()
    ensures Digits("918125342924") == "918125342924"
  {
    var raw := "918125342924";
    assert AllDigits(raw);
    DigitsOfDigits(raw);
  }

  lemma ExampleGrouped()
    ensures Grouped("918125342924") == "+91 81253 42924"
  {
    var raw := "918125342924";
    assert raw[..2] == "91" && raw[2..7] == "81253" && raw[7..] == "42924";
  }
}
