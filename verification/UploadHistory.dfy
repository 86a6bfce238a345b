/** The scripted instrument's bounded record of uploads: always the longest recent run that fits its bounds. */
module UploadHistory {
  import opened ByteStrings

  datatype Upload = Upload(command: Text, payload: Bytes)

  const MAXIMUM_ENTRIES: nat := 256

  function Total(uploads: seq<Upload>): nat {
    if uploads == [] then 0 else |uploads[0].payload| + Total(uploads[1..])
  }

  lemma {:induction false} TotalConcat(a: seq<Upload>, b: seq<Upload>)
    ensures Total(a + b) == Total(a) + Total(b)
  {
    if a == [] {
      assert a + b == b;
    } else {
      assert (a + b)[1..] == a[1..] + b;
      TotalConcat(a[1..], b);
    }
  }

  predicate Fits(uploads: seq<Upload>, limit: nat) {
    |uploads| <= MAXIMUM_ENTRIES && Total(uploads) <= limit
  }

  predicate Retainable(upload: Upload, limit: nat) {
    0 < limit && |upload.payload| <= limit
  }

  /** An upload is retainable exactly when the limit is positive and the upload fits it alone. */
  lemma RetainableExactly(upload: Upload, limit: nat)
    ensures Retainable(upload, limit) <==> limit > 0 && |upload.payload| <= limit
    ensures Retainable(upload, limit) <==> limit > 0 && Fits([upload], limit)
    ensures Fits([], limit)
  {
    assert [upload][1..] == [] && Total([upload]) == |upload.payload| + Total([]);
  }

  /** A retainable upload is always kept, as the last entry; any other leaves the history as it was. */
  lemma LastIsKept(uploads: seq<Upload>, limit: nat, upload: Upload)
    ensures var before := Longest(Retained(uploads, limit), limit);
            var after := Longest(Retained(uploads + [upload], limit), limit);
            if Retainable(upload, limit) then after != [] && after[|after| - 1] == upload else after == before
  {
    assert (uploads + [upload])[..|uploads|] == uploads;
    var kept := Retained(uploads + [upload], limit);
    if Retainable(upload, limit) {
      RetainableExactly(upload, limit);
      LongestIsOptimal(kept, limit, [upload]);
      assert kept[|kept| - 1..] == [upload];
    } else {
      assert Retained(uploads, limit) + [] == Retained(uploads, limit);
    }
  }

  /** The retainable uploads among `uploads`, in order. */
  function Retained(uploads: seq<Upload>, limit: nat): (r: seq<Upload>)
    ensures forall u | u in r :: Retainable(u, limit)
  {
    if uploads == [] then []
    else
      var last := uploads[|uploads| - 1];
      Retained(uploads[..|uploads| - 1], limit) + if Retainable(last, limit) then [last] else []
  }

  /** The longest suffix that fits. */
  function Longest(uploads: seq<Upload>, limit: nat): seq<Upload> {
    if Fits(uploads, limit) then uploads
    else if uploads == [] then []
    else Longest(uploads[1..], limit)
  }

  predicate IsSuffix(s: seq<Upload>, uploads: seq<Upload>) {
    |s| <= |uploads| && s == uploads[|uploads| - |s|..]
  }

  /** `Longest` is a suffix that fits, and no fitting suffix is longer. */
  lemma {:induction false} LongestIsOptimal(uploads: seq<Upload>, limit: nat, other: seq<Upload>)
    ensures IsSuffix(Longest(uploads, limit), uploads) && Fits(Longest(uploads, limit), limit)
    ensures IsSuffix(other, uploads) && Fits(other, limit) ==> |other| <= |Longest(uploads, limit)|
  {
    if !Fits(uploads, limit) && uploads != [] {
      LongestIsOptimal(uploads[1..], limit, other);
      if IsSuffix(other, uploads) && Fits(other, limit) {
        assert other != uploads;
        assert IsSuffix(other, uploads[1..]);
      }
    }
  }

  /** Appending to a list can be answered from its longest fitting suffix alone. */
  lemma {:induction false} LongestForgets(uploads: seq<Upload>, limit: nat, upload: Upload)
    ensures Longest(uploads + [upload], limit) == Longest(Longest(uploads, limit) + [upload], limit)
  {
    if !Fits(uploads, limit) && uploads != [] {
      TotalConcat(uploads, [upload]);
      assert (uploads + [upload])[1..] == uploads[1..] + [upload];
      LongestForgets(uploads[1..], limit, upload);
    }
  }

  class History {
    const maxBytes: nat
    var entries: seq<Upload>
    var bytes: int
    /** Every upload since the last clear. */
    ghost var uploads: seq<Upload>

    ghost predicate Valid()
      reads this
    {
      && entries == Longest(Retained(uploads, maxBytes), maxBytes)
      && bytes == Total(entries)
    }

    constructor (maxBytes: nat)
      ensures Valid() && this.maxBytes == maxBytes && uploads == []
    {
      this.maxBytes := maxBytes;
      entries, bytes, uploads := [], 0, [];
    }

    method Clear()
      modifies this
      ensures Valid() && uploads == [] && entries == []
    {
      entries, bytes, uploads := [], 0, [];
    }

    method Record(command: Text, payload: Bytes)
      requires Valid()
      modifies this
      ensures Valid() && uploads == old(uploads) + [Upload(command, payload)]
      ensures |entries| <= 256 && bytes <= maxBytes
      ensures if 0 < maxBytes && |payload| <= maxBytes
              then entries != [] && entries[|entries| - 1] == Upload(command, payload)
              else entries == old(entries) && bytes == old(bytes)
    {
      ghost var upload := Upload(command, payload);
      LongestIsOptimal(Retained(uploads, maxBytes), maxBytes, []);
      ghost var before := Retained(uploads, maxBytes);
      assert (uploads + [upload])[..|uploads|] == uploads;
      uploads := uploads + [upload];
      if maxBytes == 0 || |payload| > maxBytes {
        assert Retained(uploads, maxBytes) == before + [] == before;
        return;
      }
      LongestForgets(before, maxBytes, upload);
      while entries != [] && (|entries| >= MAXIMUM_ENTRIES || bytes + |payload| > maxBytes)
        invariant bytes == Total(entries) && uploads == old(uploads) + [upload]
        invariant Longest(entries + [upload], maxBytes) == Longest(before + [upload], maxBytes)
        decreases |entries|
      {
        TotalConcat(entries, [upload]);
        assert (entries + [upload])[1..] == entries[1..] + [upload];
        var discarded := entries[0];
        entries := entries[1..];
        bytes := bytes - |discarded.payload|;
      }
      TotalConcat(entries, [upload]);
      entries := entries + [Upload(command, payload)];
      bytes := bytes + |payload|;
    }
  }
}
