module Options {

  datatype Option<+T> = None | Some(value: T) {
    predicate IsFailure() { None? }

    function PropagateFailure<U>(): Option<U>
      requires None?
    {
      None
    }

    function Extract(): T
      requires Some?
    {
      value
    }
  }
}

/** Letter case of ASCII characters. */
module Ascii {

  function LowerChar(c: char): char {
    if 'A' <= c <= 'Z' then c - 'A' + 'a' else c
  }

  predicate EqIgnoreAsciiCase(a: string, b: string) {
    |a| == |b| && forall i :: 0 <= i < |a| ==> LowerChar(a[i]) == LowerChar(b[i])
  }
}

/** Removing the whitespace at both ends of a text. */
module Trimming {

  function TrimStart(whitespace: char -> bool, s: string): string {
    if s != "" && whitespace(s[0]) then TrimStart(whitespace, s[1..]) else s
  }

  function TrimEnd(whitespace: char -> bool, s: string): string {
    if s != "" && whitespace(s[|s| - 1]) then TrimEnd(whitespace, s[..|s| - 1]) else s
  }

  function Trim(whitespace: char -> bool, s: string): string {
    TrimEnd(whitespace, TrimStart(whitespace, s))
  }

  /** `part` is `s` without the whitespace at its ends. */
  ghost predicate Trimmed(whitespace: char -> bool, s: string, part: string) {
    && (part != "" ==> !whitespace(part[0]) && !whitespace(part[|part| - 1]))
    && exists i, j :: 0 <= i <= j <= |s| && s[i..j] == part
                      && (forall k :: 0 <= k < i || j <= k < |s| ==> whitespace(s[k]))
  }

  lemma {:induction false} TrimStartStrips(whitespace: char -> bool, s: string) returns (i: nat)
    ensures i <= |s| && TrimStart(whitespace, s) == s[i..]
    ensures forall k :: 0 <= k < i ==> whitespace(s[k])
    ensures i < |s| ==> !whitespace(s[i])
  {
    i := 0;
    if s != "" && whitespace(s[0]) {
      var j := TrimStartStrips(whitespace, s[1..]);
      i := j + 1;
      assert forall k :: 0 < k < i ==> s[k] == s[1..][k - 1];
    }
  }

  lemma {:induction false} TrimEndStrips(whitespace: char -> bool, s: string) returns (j: nat)
    ensures j <= |s| && TrimEnd(whitespace, s) == s[..j]
    ensures forall k :: j <= k < |s| ==> whitespace(s[k])
    ensures j > 0 ==> !whitespace(s[j - 1])
  {
    j := |s|;
    if s != "" && whitespace(s[|s| - 1]) {
      j := TrimEndStrips(whitespace, s[..|s| - 1]);
      assert forall k :: 0 <= k < |s| - 1 ==> s[k] == s[..|s| - 1][k];
    }
  }

  lemma TrimIsExact(whitespace: char -> bool, s: string)
    ensures Trimmed(whitespace, s, Trim(whitespace, s))
  {
    var i := TrimStartStrips(whitespace, s);
    var n := TrimEndStrips(whitespace, s[i..]);
    assert s[i..][..n] == s[i..i + n];
    forall k | i + n <= k < |s| ensures whitespace(s[k]) {
      assert s[k] == s[i..][k - i];
    }
  }
}
