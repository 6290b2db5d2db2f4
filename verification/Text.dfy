/** String helpers of the runtime that the asset code leans on. */
module Text {
  import opened Options

  const BOM: char := '\U{FEFF}'

  /** What `trim` and `\s` treat as white space. */
  predicate IsSpace(c: char) {
    c == ' ' || '\t' <= c <= '\r' || c == '\U{A0}' || c == '\U{1680}' || '\U{2000}' <= c <= '\U{200A}'
    || c == '\U{2028}' || c == '\U{2029}' || c == '\U{202F}' || c == '\U{205F}' || c == '\U{3000}' || c == BOM
  }

  function TrimStart(s: string): string {
    if s != "" && IsSpace(s[0]) then TrimStart(s[1..]) else s
  }

  function TrimEnd(s: string): string {
    if s != "" && IsSpace(s[|s| - 1]) then TrimEnd(s[..|s| - 1]) else s
  }

  function Trim(s: string): string {
    TrimEnd(TrimStart(s))
  }

  /** No white space at either end. */
  predicate Trimmed(s: string) {
    s == "" || (!IsSpace(s[0]) && !IsSpace(s[|s| - 1]))
  }

  lemma {:induction false} TrimStartResult(s: string)
    ensures TrimStart(s) == "" || !IsSpace(TrimStart(s)[0])
    ensures exists k :: 0 <= k <= |s| && TrimStart(s) == s[k..]
    decreases |s|
  {
    if s != "" && IsSpace(s[0]) {
      TrimStartResult(s[1..]);
      var k :| 0 <= k <= |s[1..]| && TrimStart(s[1..]) == s[1..][k..];
      assert s[1..][k..] == s[k + 1..];
    } else {
      assert s[0..] == s;
    }
  }

  lemma {:induction false} TrimEndResult(s: string)
    requires s == "" || !IsSpace(s[0])
    ensures Trimmed(TrimEnd(s)) && TrimEnd(s) <= s
    ensures Trimmed(s) ==> TrimEnd(s) == s
    decreases |s|
  {
    if s != "" && IsSpace(s[|s| - 1]) {
      TrimEndResult(s[..|s| - 1]);
    }
  }

  /** Trimming leaves a trimmed text and keeps exactly the texts that already were. */
  lemma TrimIsTrimmed(s: string)
    ensures Trimmed(Trim(s))
    ensures Trim(s) == s <==> Trimmed(s)
  {
    TrimStartResult(s);
    TrimEndResult(TrimStart(s));
  }

  /** White space by its codes. */
  lemma SpaceCodes(c: char)
    ensures IsSpace(c)
            <==> || 9 <= c as int <= 13 || c as int == 32 || c as int == 160 || c as int == 5760
                 || 8192 <= c as int <= 8202 || c as int == 8232 || c as int == 8233 || c as int == 8239
                 || c as int == 8287 || c as int == 12288 || c as int == 65279
  {
  }

  predicate AllSpace(s: string) {
    forall i :: 0 <= i < |s| ==> IsSpace(s[i])
  }

  lemma {:induction false} TrimStartCuts(s: string) returns (k: nat)
    ensures k <= |s| && TrimStart(s) == s[k..] && AllSpace(s[..k])
    decreases |s|
  {
    if s != "" && IsSpace(s[0]) {
      var j := TrimStartCuts(s[1..]);
      k := j + 1;
      assert s[..k] == [s[0]] + s[1..][..j] && s[k..] == s[1..][j..];
    } else {
      k := 0;
      assert s[0..] == s;
    }
  }

  lemma {:induction false} TrimEndCuts(s: string) returns (k: nat)
    ensures k <= |s| && TrimEnd(s) == s[..k] && AllSpace(s[k..])
    decreases |s|
  {
    if s != "" && IsSpace(s[|s| - 1]) {
      k := TrimEndCuts(s[..|s| - 1]);
      assert s[..|s| - 1][..k] == s[..k] && s[k..] == s[..|s| - 1][k..] + [s[|s| - 1]];
    } else {
      k := |s|;
      assert s[..k] == s;
    }
  }

  /** Trimming takes off white space at the two ends, all of it, and nothing else. */
  lemma TrimIs(s: string) returns (before: string, after: string)
    ensures s == before + Trim(s) + after && AllSpace(before) && AllSpace(after) && Trimmed(Trim(s))
  {
    TrimIsTrimmed(s);
    var i := TrimStartCuts(s);
    var k := TrimEndCuts(s[i..]);
    before, after := s[..i], s[i..][k..];
    assert s == s[..i] + s[i..] && s[i..] == s[i..][..k] + s[i..][k..];
  }

  function BlankToNull(s: Option<string>): Option<string> {
    if s.None? || Trim(s.value) == "" then None else Some(Trim(s.value))
  }

  /** Lower-casing of ASCII letters; other letters are left as they are. */
  function LowerChar(c: char): char {
    if 'A' <= c <= 'Z' then (c as int + 32) as char else c
  }

  function Lower(s: string): string {
    seq(|s|, i requires 0 <= i < |s| => LowerChar(s[i]))
  }

  lemma LowerIs(s: string, i: nat)
    requires i < |s|
    ensures |Lower(s)| == |s|
    ensures Lower(s)[i] as int == if 65 <= s[i] as int <= 90 then s[i] as int + 32 else s[i] as int
  {
  }

  /** A text that is missing or all white space counts as none; any other is trimmed. */
  lemma BlankToNullIs(s: Option<string>)
    ensures BlankToNull(s) == None <==> s == None || AllSpace(s.value)
    ensures BlankToNull(s).Some? ==> s.Some? && BlankToNull(s).value == Trim(s.value)
  {
    if s.Some? {
      var before, after := TrimIs(s.value);
      if Trim(s.value) != "" {
        assert s.value[|before|] == Trim(s.value)[0];
      }
    }
  }

  function Join(parts: seq<string>, separator: string): string {
    if parts == [] then ""
    else if |parts| == 1 then parts[0]
    else parts[0] + separator + Join(parts[1..], separator)
  }
}
