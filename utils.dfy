/** The fake-message generator of the inbox demo (src/utils.js). */
module Utils {

  /** One inbox message: a subject line, a body text and whether it has been read. */
  datatype Message = Message(subject: string, description: string, read: bool)

  predicate IsDigit(c: char) {
    '0' <= c <= '9'
  }

  predicate AllDigits(s: string) {
    forall j :: 0 <= j < |s| ==> IsDigit(s[j])
  }

  function DigitChar(d: nat): (c: char)
    requires d < 10
    ensures IsDigit(c)
  {
    (48 + d) as char
  }

  function DigitValue(c: char): (d: nat)
    requires IsDigit(c)
    ensures d < 10
  {
    c as int - 48
  }

  /** The text a JavaScript template literal produces for a non-negative
      integer: its decimal digits, most significant first, no leading zero. */
  function Decimal(k: nat): (r: string)
    ensures |r| >= 1 && AllDigits(r)
    ensures r[0] == '0' <==> k == 0
    decreases k
  {
    if k < 10 then [DigitChar(k)] else Decimal(k / 10) + [DigitChar(k % 10)]
  }

  /** The number a string of decimal digits denotes. */
  function DecimalValue(s: string): nat
    requires AllDigits(s)
  {
    if s == [] then 0 else 10 * DecimalValue(s[..|s| - 1]) + DigitValue(s[|s| - 1])
  }

  /** Reading back the digits of `k` gives `k`: the label of a number identifies it. */
  lemma {:induction false} DecimalRoundTrip(k: nat)
    ensures DecimalValue(Decimal(k)) == k
  {
    var r := Decimal(k);
    if k >= 10 {
      assert r[..|r| - 1] == Decimal(k / 10);
      DecimalRoundTrip(k / 10);
    }
  }

  lemma DecimalInjective(a: nat, b: nat)
    requires a != b
    ensures Decimal(a) != Decimal(b)
  {
    DecimalRoundTrip(a);
    DecimalRoundTrip(b);
  }

  const Prefix: string := "Message "
  const Greeting: string := "Hello world!"

  /** The record the loop body pushes on iteration `i`. */
  function FakeMessage(i: nat): Message {
    Message(Prefix + Decimal(i + 1), Greeting, false)
  }

  /** The array the generator returns for argument `n`, built as the loop
      builds it: one push per index, in increasing order. */
  function Generated(n: int): seq<Message>
    decreases n
  {
    if n <= 0 then [] else Generated(n - 1) + [FakeMessage(n - 1)]
  }

  /** `generateMessages(n)`: a `for` loop pushes one record per index onto a
      local array that starts empty. */
  method GenerateMessages(n: int) returns (messages: seq<Message>)
    ensures messages == Generated(n)
    ensures |messages| == if n <= 0 then 0 else n
    ensures forall k :: 0 <= k < |messages| ==>
              && messages[k].subject == "Message " + Decimal(k + 1)
              && messages[k].description == "Hello world!"
              && !messages[k].read
  {
    messages := [];
    var i := 0;
    while i < n
      invariant 0 <= i <= if n <= 0 then 0 else n
      invariant messages == Generated(i)
    {
      messages := messages + [FakeMessage(i)];
      i := i + 1;
    }
    GeneratedLength(n);
    forall k | 0 <= k < |messages|
      ensures messages[k] == FakeMessage(k)
    {
      GeneratedAt(n, k);
    }
  }

  /** The generator returns exactly `n` records, and none for `n <= 0`. */
  lemma {:induction false} GeneratedLength(n: int)
    ensures |Generated(n)| == if n <= 0 then 0 else n
    decreases n
  {
    if n > 0 {
      GeneratedLength(n - 1);
    }
  }

  /** Record `k` is the one built on iteration `k`: subject "Message k+1",
      the fixed description, and unread. */
  lemma {:induction false} GeneratedAt(n: int, k: nat)
    requires k < n
    ensures |Generated(n)| == n
    ensures Generated(n)[k] == FakeMessage(k)
    ensures Generated(n)[k].subject == "Message " + Decimal(k + 1)
    ensures Generated(n)[k].description == "Hello world!"
    ensures !Generated(n)[k].read
    decreases n
  {
    GeneratedLength(n);
    if k < n - 1 {
      GeneratedAt(n - 1, k);
    }
  }

  /** No two generated records share a subject. */
  lemma GeneratedSubjectsDistinct(n: int, j: nat, k: nat)
    requires j < k < n
    ensures |Generated(n)| == n && Generated(n)[j].subject != Generated(n)[k].subject
  {
    GeneratedAt(n, j);
    GeneratedAt(n, k);
    DecimalInjective(j + 1, k + 1);
    var sj, sk := Generated(n)[j].subject, Generated(n)[k].subject;
    assert sj[|Prefix|..] == Decimal(j + 1);
    assert sk[|Prefix|..] == Decimal(k + 1);
  }
}
