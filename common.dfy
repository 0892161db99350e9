/** Values shared by the whole model: bytes, the error values the Go code
    returns, and the Option/Result wrappers that stand for Go's
    `(value, error)` pairs. */
module Common {

  /** A Go `byte`. */
  type Byte = b: int | 0 <= b < 256

  /** A line of a coupon file, as `scanner.Text()` hands it out. */
  type Line = seq<Byte>

  const NewLine: Byte := 10
  const CarriageReturn: Byte := 13

  datatype Option<+T> = None | Some(value: T)

  /** The errors the modelled code can return. */
  datatype Error =
    | OpenFailed(path: string)       // os.Open or File.Stat failed
    | ReadFailed(path: string)       // File.ReadAt could not fill the buffer
    | AlreadyRetrieved               // errors.New("already retrived")
    | Foreign(message: string)       // an error handed back by a DAO

  datatype Result<+T> = Ok(value: T) | Err(error: Error)

  /** The index of the first `'\n'` at or after `p`, or `|f|` when there is
      none: where bufio's line splitting ends a token (bytes.IndexByte).
      The planner's probe stops one byte after it (ProbeEndIsNextNewLine). */
  function NextNewLine(f: seq<Byte>, p: nat): (k: nat)
    ensures p <= |f| ==> p <= k <= |f|
    ensures p > |f| ==> k == |f|
    ensures k < |f| ==> f[k] == NewLine
    decreases |f| - p
  {
    if p >= |f| then |f|
    else if f[p] == NewLine then p
    else NextNewLine(f, p + 1)
  }

  /** No newline comes before the one NextNewLine finds. */
  lemma {:induction false} NextNewLineSkips(f: seq<Byte>, p: nat)
    ensures forall j :: p <= j < NextNewLine(f, p) ==> f[j] != NewLine
    decreases |f| - p
  {
    if p < |f| && f[p] != NewLine {
      NextNewLineSkips(f, p + 1);
    }
  }

  /** The first newline is unique: any index that is a newline with no
      newline between `p` and it is the one NextNewLine finds; and if there
      is no newline at all from `p` on, NextNewLine gives `|f|`. */
  lemma NextNewLineIs(f: seq<Byte>, p: nat, k: nat)
    requires p <= k <= |f|
    requires k < |f| ==> f[k] == NewLine
    requires forall j :: p <= j < k ==> f[j] != NewLine
    ensures NextNewLine(f, p) == k
    decreases k - p
  {
    if p < k {
      NextNewLineIs(f, p + 1, k);
    }
  }

  /** Appending bytes does not move a newline that was already found. */
  lemma NextNewLineAppend(a: seq<Byte>, b: seq<Byte>, p: nat)
    requires p <= |a|
    ensures NextNewLine(a, p) < |a| ==> NextNewLine(a + b, p) == NextNewLine(a, p)
    ensures NextNewLine(a, p) == |a| ==> NextNewLine(a + b, p) == |a| + NextNewLine(b, 0)
  {
    var k := NextNewLine(a, p);
    NextNewLineSkips(a, p);
    if k < |a| {
      NextNewLineIs(a + b, p, k);
    } else {
      var m := NextNewLine(b, 0);
      NextNewLineSkips(b, 0);
      NextNewLineIs(a + b, p, |a| + m);
    }
  }

  /** Bytes in front do not change where the next newline after them is. */
  lemma {:induction false} NextNewLineAfter(a: seq<Byte>, b: seq<Byte>, q: nat)
    requires q <= |b|
    ensures NextNewLine(a + b, |a| + q) == |a| + NextNewLine(b, q)
    decreases |b| - q
  {
    if q < |b| {
      assert (a + b)[|a| + q] == b[q];
      if b[q] != NewLine {
        NextNewLineAfter(a, b, q + 1);
      }
    }
  }

  /** Cutting a sequence at `j` and putting the pieces back together. */
  lemma SliceSplit<T>(s: seq<T>, i: nat, j: nat)
    requires i <= j <= |s|
    ensures s[i..j] + s[j..] == s[i..]
  {
  }

  lemma ConcatAssoc<T>(a: seq<T>, b: seq<T>, c: seq<T>)
    ensures a + (b + c) == (a + b) + c
  {
  }

  /** A prefix grows by the next element. */
  lemma TakeSnoc<T>(s: seq<T>, i: nat)
    requires i < |s|
    ensures s[..i] + [s[i]] == s[..i + 1]
  {
  }
}
