// Writing the log into a buffer that was measured first: ipmprintf of src/ipm_log_write.c
// and its two passes in src/ipm_mpi_log.c.
module LogBuffer {
  import opened Texts

  const NUL: char := '\0'

  lemma {:induction false} PartOfJoined(items: seq<string>, k: nat)
    requires k < |items|
    ensures |Joined(items[..k])| + |items[k]| <= |Joined(items)|
  {
    var n := |items| - 1;
    if k < n {
      PartOfJoined(items[..n], k);
      assert items[..n][..k] == items[..k];
    }
  }

  // vsnprintf (section 7.19.6.12 of ISO/IEC 9899:1999): at most room - 1 characters and a NUL
  // go to the buffer, and the result is the length of the whole text.
  method Vsnprintf(buffer: array<char>, at: nat, room: nat, text: string) returns (rv: nat)
    requires room > 0 ==> at + (if |text| < room then |text| else room - 1) < buffer.Length
    modifies buffer
    ensures rv == |text|
    ensures var put := if |text| < room then |text| else room - 1;
      if room == 0 then buffer[..] == old(buffer[..])
      else buffer[..] == old(buffer[..])[..at] + text[..put] + [NUL] + old(buffer[..])[at + put + 1..]
  {
    rv := |text|;
    if room > 0 {
      var put := if |text| < room then |text| else room - 1;
      CopyAt(buffer, at, text, put);
      ghost var copied := buffer[..];
      buffer[at + put] := NUL;
      assert buffer[..] == copied[..at + put] + [NUL] + copied[at + put + 1..];
    }
  }

  method CopyAt(buffer: array<char>, at: nat, text: string, put: nat)
    requires put <= |text| && at + put <= buffer.Length
    modifies buffer
    ensures buffer[..] == old(buffer[..])[..at] + text[..put] + old(buffer[..])[at + put..]
  {
    for i := 0 to put
      invariant forall k | 0 <= k < buffer.Length ::
        buffer[k] == if at <= k < at + i then text[k - at] else old(buffer[k])
    {
      buffer[at + i] := text[i];
    }
  }

  // No item is all there is to write.
  predicate Whole(items: seq<string>) {
    forall k | 0 <= k < |items| :: |items[k]| < |Joined(items)|
  }

  // That is so exactly when at least two items have something to write.
  lemma WholeIff(items: seq<string>)
    requires |Joined(items)| > 0
    ensures Whole(items) <==> exists i, j :: 0 <= i < j < |items| && items[i] != "" && items[j] != ""
  {
    assert items[..|items|] == items;
    var i := SomeText(items, |items|);
    if j :| 0 <= j < |items| && j != i && items[j] != "" {
      var a, b := if i < j then i else j, if i < j then j else i;
      assert items[a] != "" && items[b] != "";
      forall k | 0 <= k < |items|
        ensures |items[k]| < |Joined(items)|
      {
        TwoParts(items, a, b);
        if k != a {
          TwoParts(items, if k < a then k else a, if k < a then a else k);
        }
      }
    } else {
      OnlyText(items, |items|, i);
      assert !(|items[i]| < |Joined(items)|);
    }
  }

  lemma {:induction false} SomeText(items: seq<string>, n: nat) returns (i: nat)
    requires n <= |items| && |Joined(items[..n])| > 0
    ensures i < n && items[i] != ""
  {
    assert items[..n][..n - 1] == items[..n - 1];
    if items[n - 1] != "" {
      i := n - 1;
    } else {
      i := SomeText(items, n - 1);
    }
  }

  lemma {:induction false} OnlyText(items: seq<string>, n: nat, i: nat)
    requires n <= |items| && i < |items| && forall j | 0 <= j < |items| && j != i :: items[j] == ""
    ensures |Joined(items[..n])| == if i < n then |items[i]| else 0
  {
    if n > 0 {
      assert items[..n][..n - 1] == items[..n - 1];
      OnlyText(items, n - 1, i);
    }
  }

  lemma TwoParts(items: seq<string>, a: nat, b: nat)
    requires a < b < |items|
    ensures |items[a]| + |items[b]| <= |Joined(items)|
  {
    PartOfJoined(items, b);
    PartOfJoined(items[..b], a);
  }

  class Log {
    var bsize: nat

    constructor ()
      ensures bsize == 0
    {
      bsize := 0;
    }

    // Prints into the buffer.  The room is the same for every item, wherever it starts.
    method Printf(buffer: array<char>, buffIn: nat, text: string) returns (rv: nat)
      requires buffIn > 0 ==> bsize + (if |text| < buffIn then |text| else buffIn - 1) < buffer.Length
      modifies this, buffer
      ensures rv == |text| && bsize == old(bsize) + |text|
      ensures var put := if |text| < buffIn then |text| else buffIn - 1;
        if buffIn == 0 then buffer[..] == old(buffer[..])
        else buffer[..] == old(buffer[..])[..old(bsize)] + text[..put] + [NUL] + old(buffer[..])[old(bsize) + put + 1..]
    {
      rv := Vsnprintf(buffer, bsize, buffIn, text);
      bsize := bsize + rv;
    }

    // One pass over all that is to be logged: with no room it measures, with room it fills.
    method Write(buffer: array<char>, buffIn: nat, items: seq<string>) returns (size: nat)
      requires buffIn == 0 || (buffIn == |Joined(items)| && buffer.Length == buffIn + 1)
      modifies this, buffer
      ensures size == |Joined(items)|
      ensures buffIn == 0 ==> buffer[..] == old(buffer[..])
      ensures buffIn > 0 && Whole(items) ==> buffer[..] == Joined(items) + [NUL]
      ensures buffIn > 0 && !Whole(items) ==> NUL in buffer[..buffIn]
    {
      bsize := 0;
      for k := 0 to |items|
        invariant bsize == |Joined(items[..k])| <= |Joined(items)|
        invariant buffIn == 0 ==> buffer[..] == old(buffer[..])
        invariant buffIn > 0 ==> Filled(buffer[..], items, k)
      {
        PartOfJoined(items, k);
        assert items[..k + 1] == items[..k] + [items[k]];
        JoinedSnoc(items[..k], items[k]);
        ghost var was := buffer[..];
        var rv := Printf(buffer, buffIn, items[k]);
        if buffIn > 0 {
          FilledOneMore(was, buffer[..], items, k);
        }
      }
      assert items[..|items|] == items;
      size := bsize;
      if buffIn > 0 {
        FilledAll(buffer[..], items);
      }
    }
  }

  // The buffer after k items: their text and a NUL, unless one of them was cut.
  ghost predicate Filled(buffer: string, items: seq<string>, k: nat) {
    && k <= |items| && |buffer| == |Joined(items)| + 1
    && (if forall i | 0 <= i < k :: |items[i]| < |Joined(items)|
        then |Joined(items[..k])| < |buffer| && buffer[..|Joined(items[..k])|] == Joined(items[..k])
             && (k > 0 ==> buffer[|Joined(items[..k])|] == NUL)
        else |Joined(items[..k])| == |Joined(items)| > 0 && buffer[|Joined(items)| - 1] == NUL)
  }

  lemma FilledOneMore(was: string, buffer: string, items: seq<string>, k: nat)
    requires k < |items| && Filled(was, items, k) && |Joined(items)| > 0
    requires Joined(items[..k + 1]) == Joined(items[..k]) + items[k] && |Joined(items[..k + 1])| <= |Joined(items)|
    requires
      var at, put := |Joined(items[..k])|, if |items[k]| < |Joined(items)| then |items[k]| else |Joined(items)| - 1;
      buffer == was[..at] + items[k][..put] + [NUL] + was[at + put + 1..]
    ensures Filled(buffer, items, k + 1)
  {
  }

  lemma FilledAll(buffer: string, items: seq<string>)
    requires Filled(buffer, items, |items|) && |Joined(items)| > 0
    ensures Whole(items) ==> buffer == Joined(items) + [NUL]
    ensures !Whole(items) ==> NUL in buffer[..|Joined(items)|]
  {
    assert items[..|items|] == items;
    if Whole(items) {
      assert buffer == buffer[..|Joined(items)|] + [buffer[|Joined(items)|]];
    } else {
      assert buffer[..|Joined(items)|][|Joined(items)| - 1] == NUL;
    }
  }
}
