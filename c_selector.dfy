/** The C revision's `Selector`: up to 25 option characters. The player's
    input is read with `fgets` into a 50-byte buffer, so a line is consumed
    in chunks of at most 49 characters; the first non-space character of a
    chunk, lower-cased, is the selection if it is an option, and otherwise
    the next chunk is read. End of input terminates the program. */
module CSelector {
  import opened Kinds
  import opened Text

  /** `SELECTOR_OPTIONS_MAX_COUNT`. */
  const SelectorOptionsMaxCount: nat := 25

  /** `SELECTOR_GET_SELECTION_BUFFER_SIZE`. */
  const BufferSize: nat := 50

  /** How many characters one `fgets(buffer, 50, stdin)` call takes from
      `input`, counting from position i: up to and including the first line
      feed, at most 49, at most what is left. */
  function ChunkEnd(input: string, i: nat): (n: nat)
    requires i <= |input| && i < BufferSize
    ensures i <= n <= |input| && n < BufferSize
    ensures n == |input| || n == BufferSize - 1 || (n > 0 && input[n - 1] == '\n')
    ensures forall k :: i <= k < n - 1 ==> input[k] != '\n'
    decreases BufferSize - i
  {
    if i == |input| || i == BufferSize - 1 then i
    else if input[i] == '\n' then i + 1
    else ChunkEnd(input, i + 1)
  }

  /** `fgets`: `None` (the end of input, after which `handle_stdin_error`
      exits) or the chunk read and the input still unread. */
  function Fgets(input: string): (r: Option<(string, string)>)
    ensures r.None? <==> input == []
    ensures r.Some? ==> 0 < |r.value.0| < BufferSize && r.value.0 + r.value.1 == input
  {
    if input == [] then None
    else
      var n := ChunkEnd(input, 0);
      assert n > 0;
      assert input[..n] + input[n..] == input;
      Some((input[..n], input[n..]))
  }

  /** Where the scan of the buffer stops: at the first character that is
      not white space, or at the end of the chunk (where `fgets` put the
      terminating NUL). */
  function SpaceRun(chunk: string): (k: nat)
    ensures k <= |chunk| && forall j :: 0 <= j < k ==> CSpace(chunk[j])
    ensures k < |chunk| ==> !CSpace(chunk[k])
  {
    if chunk == [] || !CSpace(chunk[0]) then 0
    else
      var k := SpaceRun(chunk[1..]);
      assert forall j :: 1 <= j < k + 1 ==> chunk[j] == chunk[1..][j - 1];
      k + 1
  }

  /** The character the scan finds: the first non-space character, or NUL
      when the chunk is blank (a NUL read from the input ends the scan with
      NUL as well). */
  function FirstNonSpace(chunk: string): char {
    var k := SpaceRun(chunk);
    if k == |chunk| then '\0' else chunk[k]
  }

  /** What `selector_get_selection` returns: a character and the input left,
      or the end of the program (end of input). */
  datatype Answer = Exit | Chosen(choice: char, rest: string)

  /** The chunk's candidate selection if it is one of the options. */
  function Candidate(options: seq<char>, chunk: string): Option<char> {
    var c := FirstNonSpace(chunk);
    if c == '\0' || LowerChar(c) !in options then None else Some(LowerChar(c))
  }

  /** `selector_get_selection` over the input: NUL at once for an empty
      menu; otherwise chunks are read until one yields an option. */
  function Choose(options: seq<char>, input: string): Answer
    decreases |input|
  {
    if |options| == 0 then Chosen('\0', input)
    else
      match Fgets(input)
      case None => Exit
      case Some((chunk, rest)) =>
        match Candidate(options, chunk)
        case None => Choose(options, rest)
        case Some(c) => Chosen(c, rest)
  }

  /** The answer is NUL exactly for an empty menu; otherwise it is one of the
      options, never NUL, taken from input actually consumed; the program
      exits only when a non-empty menu meets input with no acceptable
      chunk. */
  lemma {:induction false} ChooseSpec(options: seq<char>, input: string)
    ensures |options| == 0 ==> Choose(options, input) == Chosen('\0', input)
    ensures |options| > 0 && Choose(options, input).Chosen? ==>
              var a := Choose(options, input);
              && a.choice in options && a.choice != '\0'
              && |a.rest| < |input| && a.rest == input[|input| - |a.rest|..]
    decreases |input|
  {
    if |options| > 0 {
      match Fgets(input) {
        case None =>
        case Some((chunk, rest)) =>
          assert rest == input[|chunk|..];
          match Candidate(options, chunk) {
            case None =>
              ChooseSpec(options, rest);
              var a := Choose(options, rest);
              if a.Chosen? {
                DropDrop(input, |chunk|, |rest| - |a.rest|);
              }
            case Some(c) =>
          }
      }
    }
  }

  lemma DropDrop(s: string, i: nat, j: nat)
    requires i + j <= |s|
    ensures s[i..][j..] == s[i + j..]
  {
  }

  /** Leading white space is skipped and upper case is folded: a line "  U"
      selects 'u' when 'u' is an option. */
  lemma ChooseLetter(options: seq<char>, c: char, rest: string)
    requires c in options && 'a' <= c <= 'z'
    ensures Choose(options, [' ', ' ', (c as int - 32) as char, '\n'] + rest) == Chosen(c, rest)
  {
    var input := [' ', ' ', (c as int - 32) as char, '\n'] + rest;
    assert ChunkEnd(input, 3) == 4;
    assert input[..4] == [' ', ' ', (c as int - 32) as char, '\n'];
    assert input[4..] == rest;
    SpaceRunAt(input[..4], 2);
  }

  /** A chunk of blanks is rejected and the next chunk is read. */
  lemma ChooseSkipsBlank(options: seq<char>, rest: string)
    requires |options| > 0
    ensures Choose(options, [' ', '\n'] + rest) == Choose(options, rest)
  {
    var input := [' ', '\n'] + rest;
    assert ChunkEnd(input, 1) == 2;
    assert input[..2] == [' ', '\n'];
    assert input[2..] == rest;
    assert input[..2][1..] == ['\n'];
  }

  /** A line holding one lower-case letter selects it when it is an
      option. */
  lemma ChooseLine(options: seq<char>, c: char, rest: string)
    requires c in options && 'a' <= c <= 'z'
    ensures Choose(options, [c, '\n'] + rest) == Chosen(c, rest)
  {
    var input := [c, '\n'] + rest;
    assert ChunkEnd(input, 1) == 2;
    assert input[..2] == [c, '\n'] && input[2..] == rest;
    SpaceRunAt(input[..2], 0);
  }

  /** A line holding a letter that is not an option is skipped. */
  lemma ChooseRejects(options: seq<char>, c: char, rest: string)
    requires |options| > 0 && c !in options && 'a' <= c <= 'z'
    ensures Choose(options, [c, '\n'] + rest) == Choose(options, rest)
  {
    var input := [c, '\n'] + rest;
    assert ChunkEnd(input, 1) == 2;
    assert input[..2] == [c, '\n'] && input[2..] == rest;
    SpaceRunAt(input[..2], 0);
  }

  class Selector {
    const options: array<char>
    var count: nat

    ghost predicate Valid()
      reads this
    {
      options.Length == SelectorOptionsMaxCount && count <= SelectorOptionsMaxCount
    }

    /** The options in use. */
    function Options(): seq<char>
      reads this, options
      requires Valid()
    {
      options[..count]
    }

    /** A zero-initialised `Selector`. */
    constructor ()
      ensures Valid() && Options() == [] && fresh(options)
    {
      options := new char[SelectorOptionsMaxCount](_ => '\0');
      count := 0;
    }

    /** `selector_add_option`: the C asserts the option is not white space
        and still fits; it is stored lower-cased. */
    method AddOption(option: char)
      requires Valid() && !CSpace(option) && count < SelectorOptionsMaxCount
      modifies this, options
      ensures Valid() && Options() == old(Options()) + [LowerChar(option)]
    {
      options[count] := LowerChar(option);
      count := count + 1;
    }

    /** `selector_clear`. */
    method Clear()
      requires Valid()
      modifies this
      ensures Valid() && Options() == []
    {
      count := 0;
    }

    /** `selector_get_selection`, reading from `input`. */
    method GetSelection(input: string) returns (r: Answer)
      requires Valid()
      ensures r == Choose(Options(), input)
    {
      if count == 0 {
        return Chosen('\0', input);
      }
      var unread := input;
      while true
        invariant Choose(Options(), unread) == Choose(Options(), input)
        decreases |unread|
      {
        var line := Fgets(unread);
        if line.None? {
          return Exit;
        }
        var buffer := line.value.0;
        unread := line.value.1;
        var selection := Scan(buffer);
        if selection == '\0' {
          continue;
        }
        selection := LowerChar(selection);
        var valid := Offers(selection);
        if !valid {
          continue;
        }
        return Chosen(selection, unread);
      }
    }

    /** The search of the options for the selection. */
    method Offers(selection: char) returns (valid: bool)
      requires Valid()
      ensures valid <==> selection in Options()
    {
      valid := false;
      var option := 0;
      while option < count
        invariant 0 <= option <= count
        invariant forall j :: 0 <= j < option ==> options[j] != selection
      {
        if selection == options[option] {
          valid := true;
          break;
        }
        option := option + 1;
      }
    }
  }

  /** The scan of the buffer for the selection character. */
  method Scan(buffer: string) returns (selection: char)
    ensures selection == FirstNonSpace(buffer)
  {
    selection := '\0';
    var i := 0;
    while i < |buffer| && buffer[i] != '\0'
      invariant 0 <= i <= |buffer| && selection == '\0'
      invariant forall j :: 0 <= j < i ==> CSpace(buffer[j])
    {
      if !CSpace(buffer[i]) {
        selection := buffer[i];
        break;
      }
      i := i + 1;
    }
    SpaceRunAt(buffer, i);
  }

  /** Every character before i is blank and the one at i (if any) is not:
      the scan stops at i. */
  lemma SpaceRunAt(chunk: string, i: nat)
    requires i <= |chunk| && forall j :: 0 <= j < i ==> CSpace(chunk[j])
    requires i < |chunk| ==> !CSpace(chunk[i])
    ensures FirstNonSpace(chunk) == if i == |chunk| then '\0' else chunk[i]
  {
  }
}
