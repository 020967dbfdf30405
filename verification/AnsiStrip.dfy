/** What `strip_ansi` of scripts/queue_parity.py takes away, byte class by byte class: with these
    equations every line is stripped. */
module AnsiStrip {
  import opened Text
  import opened StyledSegment

  predicate ParamChars(s: string) { forall k | 0 <= k < |s| :: '0' <= s[k] <= '9' || s[k] == ';' }

  predicate FinalChar(c: char) { 'A' <= c <= 'Z' || 'a' <= c <= 'z' }

  /** `rest` does not go on with parameters. */
  predicate NoMoreParams(rest: string) { rest == "" || !('0' <= rest[0] <= '9' || rest[0] == ';') }

  lemma ParamsRun(params: string, rest: string)
    requires ParamChars(params) && NoMoreParams(rest)
    ensures var s := [ESC, '['] + (params + rest);
            AnsiLength(s) == if rest != "" && FinalChar(rest[0]) then |params| + 3 else 0
  {
    var s := [ESC, '['] + (params + rest);
    assert s[2..] == params + rest;
    RunLengthIs(s[2..], AnsiParam, |params|);
  }

  /** An ESC, `[`, digits and semicolons, and a letter go. */
  lemma SequenceGoes(params: string, final: char, rest: string)
    requires ParamChars(params) && FinalChar(final)
    ensures Strip([ESC, '['] + (params + ([final] + rest))) == Strip(rest)
  {
    var s := [ESC, '['] + (params + ([final] + rest));
    ParamsRun(params, [final] + rest);
    PartsUnfold(s);
    assert s[|params| + 3..] == rest;
  }

  /** Without the letter the ESC stays. */
  lemma BrokenStays(params: string, rest: string)
    requires ParamChars(params) && NoMoreParams(rest) && (rest == "" || !FinalChar(rest[0]))
    ensures Strip([ESC, '['] + (params + rest)) == [ESC] + Strip(['['] + (params + rest))
  {
    var s := [ESC, '['] + (params + rest);
    ParamsRun(params, rest);
    PartsUnfold(s);
    assert s[1..] == ['['] + (params + rest);
  }

  /** So does an ESC without a bracket, and every other character. */
  lemma OtherStays(c: char, rest: string)
    requires c != ESC || rest == "" || rest[0] != '['
    ensures Strip([c] + rest) == [c] + Strip(rest)
  {
    PartsUnfold([c] + rest);
    assert ([c] + rest)[1..] == rest;
  }
}
