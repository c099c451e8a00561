// What every form of substitution gives, said of the text itself: section 2.6.2 of POSIX.1 XCU
// with the word taken literally, and what is no substitution at all.

module ExpandForms {
  import opened Prelude
  import opened Expand

  // ---- Names in ASCII ----

  predicate Identifier(s: string) {
    && s != "" && !('0' <= s[0] <= '9')
    && forall i | 0 <= i < |s| :: 'a' <= s[i] <= 'z' || 'A' <= s[i] <= 'Z' || '0' <= s[i] <= '9' || s[i] == '_'
  }

  /** Of texts in ASCII the names are exactly the identifiers. */
  lemma NamesInAscii(u: Unicode, s: string)
    requires forall i | 0 <= i < |s| :: s[i] < 128 as char
    ensures Name(u, s) <==> Identifier(s)
  {
    assert forall c: char | c < 128 as char :: u.alphabetic(c) == AsciiLetter(c) && u.numeric(c) == AsciiDigit(c);
  }

  // ---- The forms, in front of any text ----

  /** `value`, and then what `next` expands to. */
  function Then(value: string, next: Result<string, ExpandError>): Result<string, ExpandError> {
    if next.Ok? then Ok(value + next.value) else next
  }

  lemma TokenExpands(u: Unicode, t: Token, next: string, lookup: Lookup)
    requires TokenOk(u, t) && MayPrecede(u, t, next)
    ensures Expansion(u, Text(t) + next, lookup) == Then(Value(t, lookup), Expansion(u, next, lookup))
  {
    hide Tokens, TokenOk, MayPrecede, Text, Value;
    TokenInFront(u, t, next);
    if Tokens(u, next).Ok? {
      assert ([t] + Tokens(u, next).value)[1..] == Tokens(u, next).value;
    }
  }

  lemma BracesExpand(u: Unicode, n: string, op: Operator, word: string, next: string, lookup: Lookup)
    requires Name(u, n) && '}' !in word && (op == None_ ==> word == "")
    ensures Expansion(u, "${" + n + Sign(op) + word + "}" + next, lookup)
            == Then(Value(Braced(n, op, word), lookup), Expansion(u, next, lookup))
  {
    hide Expansion, Name, Sign, Value;
    TokenExpands(u, Braced(n, op, word), next, lookup);
  }

  /** `${n sign word}` */
  function Form(n: string, sign: string, word: string): string { "${" + n + sign + word + "}" }

  /** `form` gives `value` in front of `next`, whatever that is. */
  predicate Gives(u: Unicode, lookup: Lookup, form: string, next: string, value: string) {
    Expansion(u, form + next, lookup) == Then(value, Expansion(u, next, lookup))
  }

  lemma FormGives(u: Unicode, n: string, op: Operator, word: string, next: string, lookup: Lookup)
    requires Name(u, n) && '}' !in word && (op == None_ ==> word == "")
    ensures Gives(u, lookup, Form(n, Sign(op), word), next, Value(Braced(n, op, word), lookup))
  {
    hide Expansion, Name, Sign, Value;
    BracesExpand(u, n, op, word, next, lookup);
  }

  lemma AllForms(u: Unicode, n: string, word: string, next: string, lookup: Lookup)
    requires Name(u, n) && '}' !in word
    ensures Gives(u, lookup, Form(n, "", ""), next, Value(Braced(n, None_, ""), lookup))
    ensures Gives(u, lookup, Form(n, ":-", word), next, Value(Braced(n, ColonDash, word), lookup))
    ensures Gives(u, lookup, Form(n, "-", word), next, Value(Braced(n, Dash, word), lookup))
    ensures Gives(u, lookup, Form(n, ":+", word), next, Value(Braced(n, ColonPlus, word), lookup))
    ensures Gives(u, lookup, Form(n, "+", word), next, Value(Braced(n, Plus, word), lookup))
  {
    hide Form, Gives, Name, Value;
    FormGives(u, n, None_, "", next, lookup);
    FormGives(u, n, ColonDash, word, next, lookup);
    FormGives(u, n, Dash, word, next, lookup);
    FormGives(u, n, ColonPlus, word, next, lookup);
    FormGives(u, n, Plus, word, next, lookup);
  }

  /** A variable that is not set: the word of the two default forms, and otherwise nothing. */
  lemma WhenUnset(u: Unicode, n: string, word: string, next: string, lookup: Lookup)
    requires Name(u, n) && '}' !in word && lookup(n) == None
    ensures Gives(u, lookup, Form(n, "", ""), next, "")
    ensures Gives(u, lookup, Form(n, ":-", word), next, word)
    ensures Gives(u, lookup, Form(n, "-", word), next, word)
    ensures Gives(u, lookup, Form(n, ":+", word), next, "")
    ensures Gives(u, lookup, Form(n, "+", word), next, "")
  {
    hide Form, Gives, Name;
    AllForms(u, n, word, next, lookup);
  }

  /** A variable that is set and empty: the colon makes it count as not set. */
  lemma WhenEmpty(u: Unicode, n: string, word: string, next: string, lookup: Lookup)
    requires Name(u, n) && '}' !in word && lookup(n) == Some("")
    ensures Gives(u, lookup, Form(n, "", ""), next, "")
    ensures Gives(u, lookup, Form(n, ":-", word), next, word)
    ensures Gives(u, lookup, Form(n, "-", word), next, "")
    ensures Gives(u, lookup, Form(n, ":+", word), next, "")
    ensures Gives(u, lookup, Form(n, "+", word), next, word)
  {
    hide Form, Gives, Name;
    AllForms(u, n, word, next, lookup);
  }

  /** A variable that holds something: its value, or the word of the two alternative forms. */
  lemma WhenFilled(u: Unicode, n: string, value: string, word: string, next: string, lookup: Lookup)
    requires Name(u, n) && '}' !in word && lookup(n) == Some(value) && value != ""
    ensures Gives(u, lookup, Form(n, "", ""), next, value)
    ensures Gives(u, lookup, Form(n, ":-", word), next, value)
    ensures Gives(u, lookup, Form(n, "-", word), next, value)
    ensures Gives(u, lookup, Form(n, ":+", word), next, word)
    ensures Gives(u, lookup, Form(n, "+", word), next, word)
  {
    hide Form, Gives, Name;
    AllForms(u, n, word, next, lookup);
  }

  /** A name without braces takes all the characters it can, and stands for its value or nothing. */
  lemma WhenBare(u: Unicode, n: string, next: string, lookup: Lookup)
    requires Name(u, n) && (next != "" ==> !NameChar(u, next[0]))
    ensures lookup(n) == None ==> Gives(u, lookup, "$" + n, next, "")
    ensures forall value :: lookup(n) == Some(value) ==> Gives(u, lookup, "$" + n, next, value)
  {
    TokenExpands(u, Bare(n), next, lookup);
  }

  /** Two dollar signs are one, and one stands for itself before anything that could not be named. */
  lemma WhenDollar(u: Unicode, next: string, lookup: Lookup)
    ensures Gives(u, lookup, "$$", next, "$")
    ensures
      next == "" || (next[0] != '$' && next[0] != '{' && !NameStart(u, next[0])) ==>
        Gives(u, lookup, "$", next, "$")
  {
    TokenExpands(u, Doubled, next, lookup);
    if next == "" || (next[0] != '$' && next[0] != '{' && !NameStart(u, next[0])) {
      TokenExpands(u, Lone, next, lookup);
    }
  }

  /** Any other character stays as it is; and nothing expands to nothing. */
  lemma WhenPlain(u: Unicode, c: char, next: string, lookup: Lookup)
    requires c != '$'
    ensures Gives(u, lookup, [c], next, [c])
    ensures Expansion(u, "", lookup) == Ok("")
  {
    TokenExpands(u, Plain(c), next, lookup);
  }

  // ---- What is refused ----

  lemma ErrorStops(u: Unicode, s: string, error: ExpandError, lookup: Lookup)
    requires s != "" && ReadToken(u, s) == Err(error)
    ensures Expansion(u, s, lookup) == Err(error)
  {
    hide ReadToken;
  }

  /** A brace that is not closed. */
  lemma Unclosed(u: Unicode, s: string, lookup: Lookup)
    requires '}' !in s
    ensures Expansion(u, "${" + s, lookup) == Err(UnmatchedBrace)
  {
    var text := "${" + s;
    assert text[0] == '$' && text[1] == '{' && text[2..] == s;
    FindAnyIs(s, {'}'}, |s|);
    ErrorStops(u, text, UnmatchedBrace, lookup);
  }

  lemma BracesRefused(u: Unicode, inner: string, next: string, error: ExpandError, lookup: Lookup)
    requires '}' !in inner && ReadBraced(u, inner) == Err(error)
    ensures Expansion(u, "${" + inner + "}" + next, lookup) == Err(error)
  {
    hide ReadBraced;
    var tail := inner + "}" + next;
    var text := "${" + tail;
    assert text == "${" + inner + "}" + next;
    assert text[0] == '$' && text[1] == '{' && text[2..] == tail;
    FindAnyIs(tail, {'}'}, |inner|);
    assert tail[..|inner|] == inner;
    ErrorStops(u, text, error, lookup);
  }

  /** No sign that could begin an operator. */
  predicate Signless(s: string) { ':' !in s && '-' !in s && '+' !in s }

  lemma HeadIs(head: string, rest: string)
    requires Signless(head) && (rest != "" ==> rest[0] in {':', '-', '+'})
    ensures
      var inner := head + rest;
      FindAny(inner, {':', '-', '+'}) == |head| && inner[..|head|] == head && inner[|head|..] == rest
  {
    var inner := head + rest;
    assert forall j | 0 <= j < |head| :: inner[j] == head[j] && head[j] in head;
    FindAnyIs(inner, {':', '-', '+'}, |head|);
  }

  lemma NotNamedInside(u: Unicode, head: string, op: Operator, word: string)
    requires Signless(head) && (op == None_ ==> word == "") && !Name(u, head)
    ensures ReadBraced(u, head + (Sign(op) + word)) == Err(NotAName)
  {
    hide Name, FindAny, Sign, OperatorOf, Signless;
    if op == None_ {
      NoSign();
      assert "" + word == "";
    } else {
      OperatorReadBack(op, word);
    }
    HeadIs(head, Sign(op) + word);
  }

  lemma NoBraceInSigns()
    ensures forall op :: '}' !in Sign(op)
  {
  }

  /** What is not a name, with or without an operator behind it. */
  lemma NotNamed(u: Unicode, head: string, op: Operator, word: string, next: string, lookup: Lookup)
    requires Signless(head) && '}' !in head && '}' !in word && (op == None_ ==> word == "") && !Name(u, head)
    ensures Expansion(u, Form(head, Sign(op), word) + next, lookup) == Err(NotAName)
  {
    hide Name, Expansion, ReadBraced, Sign, Signless;
    var inner := head + (Sign(op) + word);
    NotNamedInside(u, head, op, word);
    NoBraceInSigns();
    BracesRefused(u, inner, next, NotAName, lookup);
    assert "${" + inner + "}" == Form(head, Sign(op), word);
  }

  /** A colon with neither of the two signs behind it, whatever stands before it. */
  lemma NoOperator(u: Unicode, head: string, rest: string, next: string, lookup: Lookup)
    requires Signless(head) && '}' !in head && '}' !in rest && (rest != "" ==> rest[0] != '-' && rest[0] != '+')
    ensures Expansion(u, "${" + head + ":" + rest + "}" + next, lookup) == Err(UnknownOperator)
  {
    hide Name, Expansion, FindAny;
    var tail := ":" + rest;
    var inner := head + tail;
    HeadIs(head, tail);
    assert tail[0] == ':' && (rest != "" ==> tail[1] == rest[0]);
    BracesRefused(u, inner, next, UnknownOperator, lookup);
    assert "${" + inner + "}" + next == "${" + head + ":" + rest + "}" + next;
  }
}
