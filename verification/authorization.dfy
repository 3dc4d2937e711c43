/**
 The JetPay authorization string: `TransactionID;Approval;amount;Token`.
 Every response carries one; capture, void and refund take an earlier one
 back as their reference. Missing values become empty fields and their
 delimiters are kept, so an encoded authorization always has four fields.
 */
module AuthorizationCodec {
  import opened Text

  const Delimiter: char := ';'

  datatype Authorization = Authorization(transactionId: string, approval: string, amount: string, token: string)

  function Fields(a: Authorization): seq<string> {
    [a.transactionId, a.approval, a.amount, a.token]
  }

  /** No field contains the delimiter, so the four fields can be told apart again. */
  predicate WellFormed(a: Authorization) {
    forall i :: 0 <= i < 4 ==> Free(Fields(a)[i], Delimiter)
  }

  /** The four fields joined with `;`: exactly four fields come back out, in order. */
  function Encode(a: Authorization): (r: string)
    ensures WellFormed(a) ==> Split(r, Delimiter) == Fields(a)
  {
    var r := Join(Fields(a), Delimiter);
    if WellFormed(a) then SplitJoin(Fields(a), Delimiter); r else r
  }

  /**
   Reads a reference: field 0 is the transaction id, field 1 the approval,
   field 2 the amount, field 3 the token. Fields the reference does not have
   (a one-, two- or three-field reference) decode as empty; fields beyond the
   fourth are ignored.
   */
  function Decode(reference: string): (a: Authorization)
    ensures WellFormed(a)
    ensures Free(reference, Delimiter) ==> a == Authorization(reference, [], [], [])
  {
    var parts := Split(reference, Delimiter);
    assert Free(reference, Delimiter) ==> parts == [reference] by {
      if Free(reference, Delimiter) {
        SplitJoin([reference], Delimiter);
      }
    }
    Authorization(Field(parts, 0), Field(parts, 1), Field(parts, 2), Field(parts, 3))
  }

  /** Decoding an encoded authorization gives back the same four fields. */
  lemma {:induction false} DecodeEncode(a: Authorization)
    requires WellFormed(a)
    ensures Decode(Encode(a)) == a
  {
    assert Split(Encode(a), Delimiter) == Fields(a);
  }

  /** The encoded form spelled out: the four fields with a `;` between each two. */
  lemma {:induction false} EncodeSpelled(a: Authorization)
    ensures Encode(a) == a.transactionId + ";" + a.approval + ";" + a.amount + ";" + a.token
  {
    var p := Fields(a);
    assert p[1..] == [a.approval, a.amount, a.token];
    assert p[1..][1..] == [a.amount, a.token];
    assert p[1..][1..][1..] == [a.token];
    assert Join(p[1..][1..], Delimiter) == a.amount + [Delimiter] + a.token;
    assert Join(p[1..], Delimiter) == a.approval + [Delimiter] + (a.amount + [Delimiter] + a.token);
  }

  /** `k` delimiters in a row. */
  function Delimiters(k: nat): (r: string)
    ensures |r| == k && forall i :: 0 <= i < k ==> r[i] == Delimiter
  {
    seq(k, _ => Delimiter)
  }

  lemma {:induction false} JoinAppendEmpty(parts: seq<string>, sep: char)
    requires |parts| >= 1
    ensures Join(parts + [[]], sep) == Join(parts, sep) + [sep]
    decreases |parts|
  {
    if |parts| == 1 {
      assert Join(parts + [[]], sep) == parts[0] + [sep] + Join([[]], sep);
    } else {
      assert (parts + [[]])[1..] == parts[1..] + [[]];
      JoinAppendEmpty(parts[1..], sep);
    }
  }

  /** `k` empty fields. */
  function Empties(k: nat): (r: seq<string>)
    ensures |r| == k && forall i :: 0 <= i < k ==> r[i] == []
  {
    seq(k, _ => [])
  }

  lemma {:induction false} JoinPadded(parts: seq<string>, k: nat)
    requires |parts| >= 1
    ensures Join(parts + Empties(k), Delimiter) == Join(parts, Delimiter) + Delimiters(k)
    decreases k
  {
    if k > 0 {
      JoinPadded(parts, k - 1);
      assert parts + Empties(k) == (parts + Empties(k - 1)) + [[]];
      JoinAppendEmpty(parts + Empties(k - 1), Delimiter);
      assert Delimiters(k - 1) + [Delimiter] == Delimiters(k);
    } else {
      assert parts + Empties(0) == parts;
    }
  }

  /**
   Re-encoding a decoded reference of at most four fields restores it, with
   one trailing `;` added per missing field: `a;b;500` becomes `a;b;500;`.
   */
  lemma {:induction false} EncodeDecode(reference: string)
    requires |Split(reference, Delimiter)| <= 4
    ensures Encode(Decode(reference)) == reference + Delimiters(4 - |Split(reference, Delimiter)|)
  {
    var parts := Split(reference, Delimiter);
    var a := Decode(reference);
    assert Fields(a) == parts + Empties(4 - |parts|) by {
      assert |Fields(a)| == |parts + Empties(4 - |parts|)|;
    }
    JoinPadded(parts, 4 - |parts|);
  }
}
