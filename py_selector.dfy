/** The main revision's `OptionSelector`: a menu of single-character
    options. A typed line is stripped and lower-cased; blank lines and lines
    whose first character is not an option are rejected and the prompt is
    repeated. The whole sanitised line is returned, so "up" is accepted when
    'u' is an option. */
module PySelector {
  import opened Kinds
  import opened Text

  /** `choice.strip().lower()`: the result neither starts nor ends with
      whitespace, and only a dotted capital I makes it longer than the
      line. */
  function Sanitize(line: string): (r: string)
    ensures |r| <= 2 * |line|
    ensures r != [] ==> !PySpace(r[0]) && !PySpace(r[|r| - 1])
  {
    var t := Strip(line);
    var r := Lower(t);
    assert r != [] ==> r[0] == PyLowerChar(t[0])[0] && Last(r) == Last(PyLowerChar(Last(t)));
    r
  }

  /** Only an all-whitespace line sanitises to the empty string. */
  lemma SanitizeBlank(line: string)
    ensures Sanitize(line) == [] <==> forall k :: 0 <= k < |line| ==> PySpace(line[k])
  {
    StripBlank(line);
  }

  /** The test `getSelection` applies to a sanitised line. */
  predicate Allowed(options: seq<char>, choice: string) {
    choice != [] && choice[0] in options
  }

  /** The test applied to a typed line. */
  predicate Accepted(options: seq<char>, line: string) {
    Allowed(options, Sanitize(line))
  }

  function SanitizeAll(lines: seq<string>): (r: seq<string>)
    ensures |r| == |lines|
  {
    seq(|lines|, k requires 0 <= k < |lines| => Sanitize(lines[k]))
  }

  /** The position of the first allowed choice. */
  function FirstAllowed(options: seq<char>, choices: seq<string>): (r: Option<nat>)
    ensures r.Some? ==> r.value < |choices| && Allowed(options, choices[r.value])
    ensures r.Some? ==> forall k :: 0 <= k < r.value ==> !Allowed(options, choices[k])
    ensures r.None? ==> forall k :: 0 <= k < |choices| ==> !Allowed(options, choices[k])
  {
    if choices == [] then None
    else if Allowed(options, choices[0]) then Some(0)
    else
      var rest := FirstAllowed(options, choices[1..]);
      assert forall k :: 1 <= k < |choices| ==> choices[1..][k - 1] == choices[k];
      match rest
      case None => None
      case Some(i) => Some(i + 1)
  }

  /** The returned choice and the number of lines read to get it. */
  datatype Selection = Selection(choice: string, used: nat)

  /** The prompt loop over the lines the user types (see SelectSpec). */
  function Select(options: seq<char>, lines: seq<string>): Option<Selection> {
    Pick(options, SanitizeAll(lines))
  }

  /** The first accepted line wins and its sanitised text is returned; every
      line before it was rejected; `None` means input ended before any line
      was accepted. */
  lemma SelectSpec(options: seq<char>, lines: seq<string>)
    ensures var r := Select(options, lines);
            r.Some? ==>
              && 1 <= r.value.used <= |lines|
              && Accepted(options, lines[r.value.used - 1])
              && r.value.choice == Sanitize(lines[r.value.used - 1])
              && r.value.choice != [] && r.value.choice[0] in options
    ensures var r := Select(options, lines);
            r.Some? ==> forall k :: 0 <= k < r.value.used - 1 ==> !Accepted(options, lines[k])
    ensures Select(options, lines).None? <==> forall k :: 0 <= k < |lines| ==> !Accepted(options, lines[k])
  {
    var choices := SanitizeAll(lines);
    assert forall k :: 0 <= k < |lines| ==> choices[k] == Sanitize(lines[k]);
    match FirstAllowed(options, choices)
    case None =>
    case Some(i) =>
      assert Select(options, lines) == Some(Selection(choices[i], i + 1));
      assert choices[i] == Sanitize(lines[i]);
  }

  /** A selection reads at least one line and no more than there are. */
  lemma SelectUsed(options: seq<char>, lines: seq<string>)
    ensures var r := Select(options, lines);
            r.Some? ==> 1 <= r.value.used <= |lines|
  {
    var choices := SanitizeAll(lines);
    match FirstAllowed(options, choices)
    case None =>
    case Some(i) =>
  }

  /** A first line whose sanitised form is allowed is selected at once. */
  lemma SelectFirst(options: seq<char>, line: string, rest: seq<string>)
    requires Accepted(options, line)
    ensures Select(options, [line] + rest) == Some(Selection(Sanitize(line), 1))
  {
    var choices := SanitizeAll([line] + rest);
    assert choices[0] == Sanitize(line);
    assert FirstAllowed(options, choices) == Some(0);
  }

  /** A line holding just one lower-case option letter is accepted at once
      and returned as it is. */
  lemma SelectLetter(options: seq<char>, c: char, rest: seq<string>)
    requires 'a' <= c <= 'z' && c in options
    ensures Select(options, [[c]] + rest) == Some(Selection([c], 1))
  {
    SanitizeLetters([c]);
    SelectFirst(options, [c], rest);
  }

  /** A word of lower-case ASCII letters sanitises to itself. */
  lemma SanitizeLetters(s: string)
    requires forall k :: 0 <= k < |s| ==> 'a' <= s[k] <= 'z'
    ensures Sanitize(s) == s
  {
    StripLetters(s);
    LowerLetters(s);
  }

  /** A no-break space is whitespace to Python, so "\u00a0e" is stripped
      to "e" and accepted. */
  lemma SelectNoBreakSpace(options: seq<char>, rest: seq<string>)
    requires 'e' in options
    ensures Select(options, ["\U{A0}e"] + rest) == Some(Selection("e", 1))
  {
    SanitizeNoBreakSpace();
    SelectFirst(options, "\U{A0}e", rest);
  }

  lemma SanitizeNoBreakSpace()
    ensures Sanitize("\U{A0}e") == "e"
  {
    assert PySpace('\U{A0}');
    assert "\U{A0}e"[1..] == "e";
    StripLetters("e");
    LowerLetters("e");
  }

  /** The dotted capital I lowers to 'i' and a combining dot: the line is
      accepted where 'i' is an option, and the choice has two characters. */
  lemma SelectDottedCapital(options: seq<char>, rest: seq<string>)
    requires 'i' in options
    ensures Select(options, ["\U{130}"] + rest) == Some(Selection(['i', '\U{307}'], 1))
  {
    SanitizeDottedCapital();
    SelectFirst(options, "\U{130}", rest);
  }

  lemma SanitizeDottedCapital()
    ensures Sanitize("\U{130}") == ['i', '\U{307}']
  {
    assert StripLeft("\U{130}") == "\U{130}";
    assert StripRight("\U{130}") == "\U{130}";
    assert Lower("\U{130}") == ['i', '\U{307}'];
  }

  /** The first allowed sanitised choice and the lines read to reach it. */
  function Pick(options: seq<char>, choices: seq<string>): Option<Selection> {
    match FirstAllowed(options, choices)
    case None => None
    case Some(i) => Some(Selection(choices[i], i + 1))
  }

  /** A selection made after `n` lines were already skipped. */
  function Later(r: Option<nat>, n: nat): Option<nat> {
    match r
    case None => None
    case Some(i) => Some(i + n)
  }

  class OptionSelector {
    var options: seq<char>
    var messages: seq<string>

    constructor ()
      ensures options == [] && messages == []
    {
      options := [];
      messages := [];
    }

    /** `addOption`: only the lower-cased first character of the code is
        kept; the message is shown in insertion order. A dotted capital I
        lowers to a two-character string, which no single typed character
        equals, so it adds no option. */
    method AddOption(code: string, message: string)
      requires |code| > 0
      modifies this
      ensures |PyLowerChar(code[0])| == 1 ==> options == old(options) + PyLowerChar(code[0])
      ensures |PyLowerChar(code[0])| != 1 ==> options == old(options)
      ensures messages == old(messages) + [message]
    {
      var lowered := PyLowerChar(code[0]);
      if |lowered| == 1 {
        options := options + lowered;
      }
      messages := messages + [message];
    }

    method AddMessage(message: string)
      modifies this
      ensures options == old(options)
      ensures messages == old(messages) + [message]
    {
      messages := messages + [message];
    }

    method DumpOptions()
      modifies this
      ensures options == [] && messages == []
    {
      options := [];
      messages := [];
    }

    /** `getSelection`, reading from `lines`. */
    method GetSelection(lines: seq<string>) returns (r: Option<Selection>)
      ensures r == Select(options, lines)
    {
      var choices := SanitizeAll(lines);
      r := PickLoop(choices);
    }

    /** The prompt loop itself, over the lines already sanitised. */
    method PickLoop(choices: seq<string>) returns (r: Option<Selection>)
      ensures r == Pick(options, choices)
    {
      var i := 0;
      while i < |choices|
        invariant 0 <= i <= |choices|
        invariant FirstAllowed(options, choices) == Later(FirstAllowed(options, choices[i..]), i)
      {
        var sanitized := choices[i];
        assert choices[i..][0] == sanitized;
        if sanitized != [] && sanitized[0] in options {
          assert FirstAllowed(options, choices) == Some(i);
          r := Some(Selection(sanitized, i + 1));
          return;
        }
        assert choices[i..][1..] == choices[i + 1..];
        i := i + 1;
      }
      assert FirstAllowed(options, choices) == None;
      r := None;
    }
  }
}
