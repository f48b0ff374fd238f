/** The scripted chat module. In repeat mode an interval timer sends
    the script entry at the index and then moves the index one step on,
    modulo the script's length; otherwise
    every message is sent once, in script order. Timer ticks are counted,
    not timed. */
module ChatLoop {

  /** The JavaScript value of `i`: a whole number, or `NaN` once the
      remainder by an empty script's length has been taken. */
  datatype Cursor = At(i: nat) | NotANumber

  /** What a template literal makes of a missing array element. */
  const Undefined: string := "undefined"

  /** The line one tick sends: the entry at the cursor, rendered as text. */
  function Entry(script: seq<string>, c: Cursor): (line: string)
    ensures c.At? && c.i < |script| ==> line == script[c.i]
    ensures !(c.At? && c.i < |script|) ==> line == Undefined
    ensures line in script || line == Undefined
  {
    match c
    case At(i) => if i < |script| then script[i] else Undefined
    case NotANumber => Undefined
  }

  /** The cursor step: one on, modulo the script's length. */
  function Advance(script: seq<string>, c: Cursor): (d: Cursor)
    ensures |script| > 0 && c.At? ==> d.At? && d.i < |script|
    ensures |script| == 0 ==> d == NotANumber
  {
    match c
    case At(i) => if |script| == 0 then NotANumber else At((i + 1) % |script|)
    case NotANumber => NotANumber
  }

  /** The cursor after `k` ticks of a loop that started at `i = 0`. */
  function CursorAfter(script: seq<string>, k: nat): (c: Cursor)
    ensures |script| > 0 ==> c.At? && c.i < |script|
    ensures |script| == 0 && k > 0 ==> c == NotANumber
  {
    if k == 0 then At(0) else Advance(script, CursorAfter(script, k - 1))
  }

  lemma MulAtLeast(n: int, d: int)
    requires n > 0 && d >= 1
    ensures n * d >= n
  {
    assert n * d == n * (d - 1) + n;
  }

  /** Euclidean division has one quotient and one remainder. */
  lemma ModUnique(a: int, n: int, q: int, r: int)
    requires n > 0 && 0 <= r < n && a == q * n + r
    ensures a % n == r
  {
    var q', r' := a / n, a % n;
    assert a == q' * n + r';
    assert (q - q') * n == r' - r;
    assert (q' - q) * n == r - r';
    if q - q' >= 1 {
      MulAtLeast(n, q - q');
      assert false;
    }
    if q' - q >= 1 {
      MulAtLeast(n, q' - q);
      assert false;
    }
  }

  lemma ModSucc(a: nat, n: nat)
    requires n > 0
    ensures (a % n + 1) % n == (a + 1) % n
  {
    var q, r := a / n, a % n;
    assert a == q * n + r;
    if r + 1 < n {
      ModUnique(a + 1, n, q, r + 1);
      ModUnique(r + 1, n, 0, r + 1);
    } else {
      assert a + 1 == (q + 1) * n + 0;
      ModUnique(a + 1, n, q + 1, 0);
      ModUnique(r + 1, n, 1, 0);
    }
  }

  /** With a non-empty script the round-robin index after `k` ticks is
      `k mod n`, so it always stays in `[0, n)`. */
  lemma {:induction false} CursorAfterIsModulo(script: seq<string>, k: nat)
    requires |script| > 0
    ensures CursorAfter(script, k) == At(k % |script|)
  {
    if k > 0 {
      CursorAfterIsModulo(script, k - 1);
      ModSucc(k - 1, |script|);
    }
  }

  /** The `k`-th tick (counting from zero) sends `messages[k mod n]`. */
  lemma KthTick(script: seq<string>, k: nat)
    requires |script| > 0
    ensures Entry(script, CursorAfter(script, k)) == script[k % |script|]
  {
    CursorAfterIsModulo(script, k);
  }

  /** With an empty script the first tick sends "undefined" and turns the
      index into `NaN`, so every later tick sends "undefined" too. */
  lemma {:induction false} EmptyScriptSendsUndefined(script: seq<string>, k: nat)
    requires |script| == 0
    ensures Entry(script, CursorAfter(script, k)) == Undefined
    ensures k > 0 ==> CursorAfter(script, k) == NotANumber
  {
  }

  /** The line of the `k`-th tick, for either kind of script. */
  lemma EntryAfter(script: seq<string>, k: nat)
    ensures Entry(script, CursorAfter(script, k)) == if |script| > 0 then script[k % |script|] else Undefined
  {
    if |script| > 0 {
      KthTick(script, k);
    } else {
      EmptyScriptSendsUndefined(script, k);
    }
  }

  /** The lines of the first `ticks` ticks of the repeating loop. */
  function RepeatLines(script: seq<string>, ticks: nat): (lines: seq<string>)
    ensures |lines| == ticks
    ensures |script| > 0 ==> forall k :: 0 <= k < ticks ==> lines[k] == script[k % |script|]
    ensures |script| == 0 ==> forall k :: 0 <= k < ticks ==> lines[k] == Undefined
  {
    if ticks == 0 then []
    else
      var k := ticks - 1;
      EntryAfter(script, k);
      RepeatLines(script, k) + [Entry(script, CursorAfter(script, k))]
  }

  /** The interval loop as a state machine: the cursor starts at 0 and, for
      a non-empty script, stays within the script on every tick. */
  method RunRepeating(script: seq<string>, ticks: nat) returns (lines: seq<string>)
    ensures lines == RepeatLines(script, ticks)
    ensures |script| > 0 ==> forall k :: 0 <= k < ticks ==> lines[k] == script[k % |script|]
  {
    var i := At(0);
    lines := [];
    while |lines| < ticks
      invariant |lines| <= ticks
      invariant i == CursorAfter(script, |lines|)
      invariant |script| > 0 ==> i.At? && i.i < |script|
      invariant lines == RepeatLines(script, |lines|)
      decreases ticks - |lines|
    {
      lines := lines + [Entry(script, i)];
      i := Advance(script, i);
    }
  }

  /** The one-shot mode: each message sent once, in order. */
  method SendEach(script: seq<string>) returns (sent: seq<string>)
    ensures |sent| == |script|
    ensures forall k :: 0 <= k < |script| ==> sent[k] == script[k]
  {
    sent := [];
    var j := 0;
    while j < |script|
      invariant 0 <= j <= |script|
      invariant |sent| == j
      invariant forall k :: 0 <= k < j ==> sent[k] == script[k]
    {
      sent := sent + [script[j]];
      j := j + 1;
    }
  }

  /** Two messages, three ticks: "a", "b", "a". */
  lemma ThreeTicksOverTwoMessages()
    ensures RepeatLines(["a", "b"], 3) == ["a", "b", "a"]
  {
    var lines := RepeatLines(["a", "b"], 3);
    assert lines[0] == "a" && lines[1] == "b" && lines[2] == "a";
  }
}
