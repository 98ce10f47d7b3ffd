/**
 From the composed environment to its frame: variables that passed validation
 make a clean frame, so the one refusal the frame writer does not foresee cannot
 happen to them.
 */
module EnvironmentDelivery {
  import opened Wrappers
  import opened Wire
  import opened Environment
  import EnvironmentFrame

  type Encoding = char -> Bytes

  /** Every character takes some bytes, and the bytes of NUL and `=` stand for nothing else, as in UTF-8. */
  ghost predicate Transparent(enc: Encoding) {
    forall c :: enc(c) != [] && (0 in enc(c) ==> c == '\0') && (EnvironmentFrame.EQUALS in enc(c) ==> c == '=')
  }

  function Encode(enc: Encoding, text: string): (r: Bytes) {
    if text == "" then [] else enc(text[0]) + Encode(enc, text[1..])
  }

  lemma {:induction false} EncodedBytes(enc: Encoding, text: string)
    requires Transparent(enc)
    ensures text != "" ==> Encode(enc, text) != []
    ensures 0 in Encode(enc, text) ==> '\0' in text
    ensures EnvironmentFrame.EQUALS in Encode(enc, text) ==> '=' in text
  {
    if text != "" {
      EncodedBytes(enc, text[1..]);
      assert text == [text[0]] + text[1..];
      assert enc(text[0]) != [];
    }
  }

  ghost predicate CarriesOne(enc: Encoding, variables: map<Name, Value>, entry: EnvironmentFrame.Entry) {
    exists n :: n in variables && entry == (Encode(enc, n), Encode(enc, variables[n]))
  }

  /** Every entry of the listing is an encoded variable. */
  ghost predicate Carries(enc: Encoding, variables: map<Name, Value>, entries: seq<EnvironmentFrame.Entry>) {
    forall i :: 0 <= i < |entries| ==> CarriesOne(enc, variables, entries[i])
  }

  lemma ValidIsClean(enc: Encoding, variables: map<Name, Value>, entries: seq<EnvironmentFrame.Entry>)
    requires Transparent(enc) && ValidVariables(variables) && Carries(enc, variables, entries)
    ensures EnvironmentFrame.Clean(entries)
  {
    hide Transparent;
    forall i | 0 <= i < |entries| ensures EnvironmentFrame.CleanEntry(entries[i]) {
      assert CarriesOne(enc, variables, entries[i]);
      var n :| n in variables && entries[i] == (Encode(enc, n), Encode(enc, variables[n]));
      EncodedBytes(enc, n);
      EncodedBytes(enc, variables[n]);
    }
  }

  /** A composed environment, whose input and overrides were validated, is read back from its frame whenever it
      keeps the limits: no name or value of it is ever refused. */
  lemma ComposedEnvironmentIsDelivered(f: Folding, requested: Spec, ceiling: Spec, input: map<Name, Value>,
                                       output: map<Name, Value>, enc: Encoding, entries: seq<EnvironmentFrame.Entry>,
                                       env: EnvironmentFrame.Variables, rest: Bytes)
    requires Composes(f, requested, ceiling, input, output) && ValidVariables(input)
    requires ValidOverrides(requested.overrides.values) && ValidOverrides(ceiling.overrides.values)
    requires Transparent(enc) && Carries(enc, output, entries)
    requires EnvironmentFrame.Lists(entries, env) && EnvironmentFrame.Fits(entries)
    ensures EnvironmentFrame.DecodeEnvironment(EnvironmentFrame.EncodeEnvironment(entries) + rest) == Success((env, rest))
  {
    hide Composes, Transparent, Carries, EnvironmentFrame.Lists, EnvironmentFrame.Fits, EnvironmentFrame.Clean,
      EnvironmentFrame.DecodeEnvironment, EnvironmentFrame.EncodeEnvironment, ValidVariables, ValidOverrides;
    ComposedIsValid(f, requested, ceiling, input, output);
    ValidIsClean(enc, output, entries);
    EnvironmentFrame.EnvironmentRoundTrip(entries, env, rest);
  }
}
