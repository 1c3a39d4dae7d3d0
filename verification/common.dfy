/** Values shared by the API routes and the browser client: optional values, the
    whitespace trimming the request validators apply, validation outcomes and the
    shape of an HTTP reply. */
module Common {

  datatype Option<+T> = None | Some(value: T)

  /** JavaScript's `x || 0` on an optional number: a missing value reads as 0
      (and a present 0 is 0 either way). */
  function OrZero(o: Option<int>): int
  {
    if o.Some? then o.value else 0
  }

  function Max(a: int, b: int): int
  {
    if a < b then b else a
  }

  /** The characters of JavaScript's `\s` class, which the validator's `trim()` strips. */
  predicate IsJsSpace(c: char)
  {
    || c == '\t' || c == '\n' || c == '\U{B}' || c == '\U{C}' || c == '\r' || c == ' '
    || c == '\U{A0}' || c == '\U{1680}' || ('\U{2000}' <= c <= '\U{200A}')
    || c == '\U{2028}' || c == '\U{2029}' || c == '\U{202F}' || c == '\U{205F}'
    || c == '\U{3000}' || c == '\U{FEFF}'
  }

  predicate AllSpace(s: string)
  {
    forall i | 0 <= i < |s| :: IsJsSpace(s[i])
  }

  /** Leading whitespace removed. */
  function TrimStart(s: string): (r: string)
    ensures |r| <= |s|
  {
    if s != [] && IsJsSpace(s[0]) then TrimStart(s[1..]) else s
  }

  /** What `TrimStart` removes is whitespace, and what it keeps is a suffix of `s` that
      does not start with a space. */
  lemma {:induction false} TrimStartFacts(s: string)
    ensures TrimStart(s) == s[|s| - |TrimStart(s)|..]
    ensures TrimStart(s) != [] ==> !IsJsSpace(TrimStart(s)[0])
    ensures AllSpace(s[..|s| - |TrimStart(s)|])
  {
    if s != [] && IsJsSpace(s[0]) {
      TrimStartFacts(s[1..]);
      var k := |s| - |TrimStart(s)|;
      assert s[1..][k - 1..] == s[k..];
      forall i | 0 <= i < k ensures IsJsSpace(s[..k][i]) {
        if i > 0 {
          assert s[..k][i] == s[1..][..k - 1][i - 1];
        }
      }
    }
  }

  /** Trailing whitespace removed. */
  function TrimEnd(s: string): (r: string)
    ensures |r| <= |s|
  {
    if s != [] && IsJsSpace(s[|s| - 1]) then TrimEnd(s[..|s| - 1]) else s
  }

  /** What `TrimEnd` removes is whitespace, and what it keeps is a prefix of `s` that does
      not end with a space. */
  lemma {:induction false} TrimEndFacts(s: string)
    ensures TrimEnd(s) == s[..|TrimEnd(s)|]
    ensures TrimEnd(s) != [] ==> !IsJsSpace(TrimEnd(s)[|TrimEnd(s)| - 1])
    ensures AllSpace(s[|TrimEnd(s)|..])
  {
    if s != [] && IsJsSpace(s[|s| - 1]) {
      var init := s[..|s| - 1];
      TrimEndFacts(init);
      var n := |TrimEnd(s)|;
      assert init[..n] == s[..n];
      forall i | 0 <= i < |s| - n ensures IsJsSpace(s[n..][i]) {
        if i < |s| - n - 1 {
          assert s[n..][i] == init[n..][i];
        }
      }
    }
  }

  /** The `trim()` sanitizer: `s` without its leading and trailing whitespace. */
  function Trim(s: string): (r: string)
    ensures |r| <= |s|
  {
    TrimEnd(TrimStart(s))
  }

  /** The result of `trim()` is empty exactly when `s` holds nothing but whitespace, which
      is when the following `notEmpty()` check fails; otherwise it starts and ends with a
      character that is not whitespace. */
  lemma TrimFacts(s: string)
    ensures Trim(s) == [] <==> AllSpace(s)
    ensures Trim(s) != [] ==> !IsJsSpace(Trim(s)[0]) && !IsJsSpace(Trim(s)[|Trim(s)| - 1])
  {
    var t := TrimStart(s);
    TrimStartFacts(s);
    TrimEndFacts(t);
    var k := |s| - |t|;
    if Trim(s) == [] {
      forall i | 0 <= i < |s| ensures IsJsSpace(s[i]) {
        assert s[..k][i] == s[i];
      }
    } else {
      assert TrimEnd(t)[0] == t[0];
    }
    SpaceLeavesNothing(s);
  }

  lemma {:induction false} SpaceLeavesNothing(s: string)
    ensures AllSpace(s) ==> TrimStart(s) == []
  {
    if s != [] && AllSpace(s) {
      assert AllSpace(s[1..]) by {
        forall i | 0 <= i < |s| - 1 ensures IsJsSpace(s[1..][i]) {
          assert s[1..][i] == s[i + 1];
        }
      }
      SpaceLeavesNothing(s[1..]);
    }
  }

  /** Trimming keeps the text between the whitespace: the result is a slice of `s`,
      with only whitespace before and after it. */
  lemma TrimIsSlice(s: string)
    ensures var k := |s| - |TrimStart(s)|; var r := Trim(s);
      && k + |r| <= |s| && r == s[k..k + |r|]
      && (forall i | 0 <= i < k :: IsJsSpace(s[i]))
      && (forall i | k + |r| <= i < |s| :: IsJsSpace(s[i]))
  {
    var t := TrimStart(s);
    var r := TrimEnd(t);
    var k := |s| - |t|;
    TrimStartFacts(s);
    TrimEndFacts(t);
    assert t == s[k..];
    forall i | 0 <= i < k ensures IsJsSpace(s[i]) {
      assert s[..k][i] == s[i];
    }
    forall i | k + |r| <= i < |s| ensures IsJsSpace(s[i]) {
      assert t[|r|..][i - k - |r|] == s[i];
    }
  }

  /** Trimming twice is trimming once: a sanitized value is left alone by a second pass. */
  lemma TrimIdempotent(s: string)
    ensures Trim(Trim(s)) == Trim(s)
  {
    var r := Trim(s);
    TrimFacts(s);
    if r != [] {
      assert TrimStart(r) == r;
      assert TrimEnd(r) == r;
    }
  }

  /** One express-validator check on a request field: whether it passed and its message. */
  datatype Check = Check(passed: bool, message: string)

  /** The messages of the failed checks, in the order the checks are declared. */
  function FailedMessages(checks: seq<Check>): (msgs: seq<string>)
    ensures msgs == [] <==> forall i | 0 <= i < |checks| :: checks[i].passed
    ensures |msgs| <= |checks|
  {
    if checks == [] then []
    else
      var rest := FailedMessages(checks[1..]);
      assert forall i | 1 <= i < |checks| :: checks[i] == checks[1..][i - 1];
      if checks[0].passed then rest else [checks[0].message] + rest
  }

  datatype ErrorBody = Errors(messages: seq<string>) | Error(message: string)

  /** An HTTP reply: a status with a JSON body, or a status with an error body. */
  datatype Response<T> = Ok(status: int, body: T) | Err(status: int, error: ErrorBody)

  /** `handleValidationErrors`: when any check failed, the request stops with 400 and the
      list of failed messages; otherwise the handler runs. */
  function RejectInvalid<T>(checks: seq<Check>): (r: Option<Response<T>>)
    ensures r.None? <==> forall i | 0 <= i < |checks| :: checks[i].passed
    ensures r.Some? ==> r.value.Err? && r.value.status == 400
    ensures r.Some? ==> r.value.error == Errors(FailedMessages(checks)) && FailedMessages(checks) != []
  {
    var msgs := FailedMessages(checks);
    if msgs == [] then None else Some(Err(400, Errors(msgs)))
  }
}
