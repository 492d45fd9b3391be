/** The `MaxTotalFileSize(maxSizeInMB)` validation decorator: a list of
    documents is valid when the sum of their sizes does not exceed the limit
    in mebibytes. Each document is reduced to its `fileSize` property. */
module TotalFileSize {
  import opened Common

  /** One element of the validated array; `None` is an absent, null or NaN
      `fileSize`. */
  datatype SizedDocument = SizedDocument(fileSize: Option<int>)

  /** `doc.fileSize || 0`. */
  function SizeOf(doc: SizedDocument): int {
    if doc.fileSize.Some? then doc.fileSize.value else 0
  }

  /** `value.reduce((sum, doc) => sum + (doc.fileSize || 0), 0)`: a fold from
      the left. */
  function Total(docs: seq<SizedDocument>): int {
    if docs == [] then 0 else Total(docs[..|docs| - 1]) + SizeOf(docs[|docs| - 1])
  }

  /** A limit in mebibytes, in bytes. */
  function LimitBytes(maxSizeInMB: int): int {
    maxSizeInMB * 1024 * 1024
  }

  /** `validate(value)`: a missing value (`!value`) is valid, and so is a
      list whose total is at most the limit, the bound included. */
  function Validate(value: Option<seq<SizedDocument>>, maxSizeInMB: int): (r: bool)
    ensures value.None? ==> r
    ensures value.Some? ==> (r <==> Total(value.value) <= maxSizeInMB * 1048576)
  {
    !value.Some? || Total(value.value) <= LimitBytes(maxSizeInMB)
  }

  /** Splitting the list splits the total. */
  lemma {:induction false} TotalAppend(a: seq<SizedDocument>, b: seq<SizedDocument>)
    ensures Total(a + b) == Total(a) + Total(b)
    decreases |b|
  {
    if b == [] {
      assert a + b == a;
    } else {
      assert (a + b)[..|a + b| - 1] == a + b[..|b| - 1];
      TotalAppend(a, b[..|b| - 1]);
    }
  }

  /** The total over a list is the size of any one element plus the total of
      the rest. */
  lemma TotalWithout(docs: seq<SizedDocument>, i: int)
    requires 0 <= i < |docs|
    ensures Total(docs) == SizeOf(docs[i]) + Total(docs[..i] + docs[i + 1..])
  {
    assert docs == docs[..i] + ([docs[i]] + docs[i + 1..]);
    TotalAppend(docs[..i], [docs[i]] + docs[i + 1..]);
    TotalAppend([docs[i]], docs[i + 1..]);
    assert Total([docs[i]]) == SizeOf(docs[i]) by {
      assert [docs[i]][..0] == [];
    }
    TotalAppend(docs[..i], docs[i + 1..]);
  }

  /** The total does not depend on the order of the documents. */
  lemma {:induction false} TotalPermutation(a: seq<SizedDocument>, b: seq<SizedDocument>)
    requires multiset(a) == multiset(b)
    ensures Total(a) == Total(b)
    decreases |a|
  {
    if a != [] {
      var last := a[|a| - 1];
      assert a == a[..|a| - 1] + [last];
      assert last in multiset(b);
      var j :| 0 <= j < |b| && b[j] == last;
      var rest := b[..j] + b[j + 1..];
      assert b == b[..j] + [b[j]] + b[j + 1..];
      assert multiset(b) == multiset(rest) + multiset{last};
      assert multiset(a) == multiset(a[..|a| - 1]) + multiset{last};
      assert multiset(rest) == multiset(b) - multiset{last};
      assert multiset(a[..|a| - 1]) == multiset(a) - multiset{last};
      TotalPermutation(a[..|a| - 1], rest);
      TotalWithout(b, j);
    } else {
      assert |b| == |multiset(b)| == 0;
    }
  }

  /** Whether the list passes does not depend on its order. */
  lemma ValidateOrderIndependent(a: seq<SizedDocument>, b: seq<SizedDocument>, maxSizeInMB: int)
    requires multiset(a) == multiset(b)
    ensures Validate(Some(a), maxSizeInMB) == Validate(Some(b), maxSizeInMB)
  {
    TotalPermutation(a, b);
  }

  /** Removing a document from a valid list keeps it valid when the removed
      size is not negative. */
  lemma RemoveKeepsValid(docs: seq<SizedDocument>, i: int, maxSizeInMB: int)
    requires 0 <= i < |docs|
    requires SizeOf(docs[i]) >= 0
    requires Validate(Some(docs), maxSizeInMB)
    ensures Validate(Some(docs[..i] + docs[i + 1..]), maxSizeInMB)
  {
    TotalWithout(docs, i);
  }

  /** `defaultMessage()`. */
  function DefaultMessage(maxSizeInMB: int): (r: string)
    ensures StartsWith(r, "Total file size cannot exceed ")
    ensures r[|r| - 2..] == "MB"
  {
    "Total file size cannot exceed " + IntToString(maxSizeInMB) + "MB"
  }

  /** The message names the limit: two different limits give two different
      messages. */
  lemma DefaultMessageInjective(m: int, n: int)
    requires DefaultMessage(m) == DefaultMessage(n)
    ensures m == n
  {
    SameFrame("Total file size cannot exceed ", IntToString(m), IntToString(n), "MB");
    IntToStringInjective(m, n);
  }

  lemma SameFrame(p: string, x: string, y: string, q: string)
    requires p + x + q == p + y + q
    ensures x == y
  {
    var a := p + x + q;
    assert |x| == |y|;
    assert a[|p|..|p| + |x|] == x;
    assert (p + y + q)[|p|..|p| + |y|] == y;
  }

  lemma IntToStringInjective(m: int, n: int)
    requires IntToString(m) == IntToString(n)
    ensures m == n
  {
    assert IntToString(m)[0] == IntToString(n)[0];
    if m < 0 && n < 0 {
      assert IntToString(m)[1..] == NatToString(-m);
      assert IntToString(n)[1..] == NatToString(-n);
      NatToStringInjective(-m, -n);
    } else if m >= 0 && n >= 0 {
      NatToStringInjective(m, n);
    }
  }
}
