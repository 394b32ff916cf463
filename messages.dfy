/** How the entity validators build their error lists, and how the error types render. */
module Messages {

  /** What one `if failed { errors = append(errors, message) }` step contributes. */
  function When(failed: bool, message: string): seq<string> {
    if failed then [message] else []
  }

  /** `xs` is `ys` with some elements deleted (the order of `ys` is kept). */
  predicate IsSubsequence<T(==)>(xs: seq<T>, ys: seq<T>)
    decreases |ys|
  {
    if ys == [] then xs == []
    else (xs != [] && xs[0] == ys[0] && IsSubsequence(xs[1..], ys[1..])) || IsSubsequence(xs, ys[1..])
  }

  /** Prepending one check keeps the collected messages in the order of the checks. */
  lemma WhenStep(failed: bool, message: string, xs: seq<string>, ys: seq<string>)
    requires IsSubsequence(xs, ys)
    ensures IsSubsequence(When(failed, message) + xs, [message] + ys)
  {
    if failed {
      assert (When(failed, message) + xs)[1..] == xs;
    } else {
      assert When(failed, message) + xs == xs;
    }
    assert ([message] + ys)[1..] == ys;
  }

  /** One validation check of a request: whether it fails, and the message it then reports. */
  datatype Check = Check(failed: bool, message: string)

  /** Runs the checks in order, appending the message of each failing one. */
  function Collect(checks: seq<Check>): seq<string> {
    if checks == [] then [] else When(checks[0].failed, checks[0].message) + Collect(checks[1..])
  }

  /** The messages of all the checks, in order. */
  function MessagesOf(checks: seq<Check>): (ms: seq<string>)
    ensures |ms| == |checks| && forall i :: 0 <= i < |checks| ==> ms[i] == checks[i].message
  {
    if checks == [] then [] else [checks[0].message] + MessagesOf(checks[1..])
  }

  predicate DistinctMessages(checks: seq<Check>) {
    forall i, j :: 0 <= i < j < |checks| ==> checks[i].message != checks[j].message
  }

  /** No two entries of `ms` are equal. */
  predicate Distinct(ms: seq<string>) {
    forall i, j :: 0 <= i < j < |ms| ==> ms[i] != ms[j]
  }

  /** Checks whose messages are a list of distinct messages carry distinct messages. */
  lemma DistinctByMessages(checks: seq<Check>, ms: seq<string>)
    requires MessagesOf(checks) == ms && Distinct(ms)
    ensures DistinctMessages(checks)
  {
    forall i, j | 0 <= i < j < |checks| ensures checks[i].message != checks[j].message {
      assert ms[i] == checks[i].message && ms[j] == checks[j].message;
    }
  }

  /** No message is collected exactly when every check passes. */
  lemma {:induction false} CollectEmpty(checks: seq<Check>)
    ensures Collect(checks) == [] <==> forall i :: 0 <= i < |checks| ==> !checks[i].failed
  {
    if checks != [] {
      CollectEmpty(checks[1..]);
      assert forall i :: 1 <= i < |checks| ==> checks[i] == checks[1..][i - 1];
    }
  }

  /** With distinct messages, a check's message is collected exactly when that check fails. */
  lemma {:induction false} CollectHas(checks: seq<Check>, i: nat)
    requires DistinctMessages(checks) && i < |checks|
    ensures checks[i].message in Collect(checks) <==> checks[i].failed
  {
    var rest := checks[1..];
    assert DistinctMessages(rest) by {
      forall a, b | 0 <= a < b < |rest| ensures rest[a].message != rest[b].message {
        assert rest[a] == checks[a + 1] && rest[b] == checks[b + 1];
      }
    }
    if i == 0 {
      CollectLacks(rest, checks[0].message);
    } else {
      CollectHas(rest, i - 1);
    }
  }

  /** A message no check carries is never collected. */
  lemma {:induction false} CollectLacks(checks: seq<Check>, m: string)
    requires forall i :: 0 <= i < |checks| ==> checks[i].message != m
    ensures m !in Collect(checks)
  {
    if checks != [] {
      var rest := checks[1..];
      assert forall i :: 0 <= i < |rest| ==> rest[i] == checks[i + 1];
      CollectLacks(rest, m);
    }
  }

  /** The collected messages keep the order of the checks. */
  lemma {:induction false} CollectOrdered(checks: seq<Check>)
    ensures IsSubsequence(Collect(checks), MessagesOf(checks))
  {
    if checks != [] {
      CollectOrdered(checks[1..]);
      WhenStep(checks[0].failed, checks[0].message, Collect(checks[1..]), MessagesOf(checks[1..]));
    }
  }

  /** The text `fmt.Sprintf("%s: %s", code, message)` of a coded error. */
  function Format(code: string, message: string): (s: string)
    ensures |s| == |code| + 2 + |message|
    ensures s[..|code|] == code && s[|code|..|code| + 2] == ": " && s[|code| + 2..] == message
  {
    code + ": " + message
  }

  /** Position of the first colon of `s` (`|s|` when there is none). */
  function FirstColon(s: string): (k: nat)
    ensures k <= |s|
    ensures k < |s| ==> s[k] == ':'
    ensures forall i :: 0 <= i < k ==> s[i] != ':'
  {
    if s == [] then 0 else if s[0] == ':' then 0 else 1 + FirstColon(s[1..])
  }

  /** Splits a coded error's text at its first ": " back into code and message. */
  function ParseCoded(s: string): (string, string) {
    var k := FirstColon(s);
    if k + 2 <= |s| then (s[..k], s[k + 2..]) else (s, "")
  }

  /** Rendering a coded error and splitting the text again gives back its code and message,
      as long as the code holds no colon: the text of a coded error determines the error. */
  lemma {:induction false} ParseFormat(code: string, message: string)
    requires ':' !in code
    ensures FirstColon(Format(code, message)) == |code|
    ensures ParseCoded(Format(code, message)) == (code, message)
    decreases |code|
  {
    var s := Format(code, message);
    if code != [] {
      assert s[1..] == Format(code[1..], message);
      ParseFormat(code[1..], message);
    }
  }
}
