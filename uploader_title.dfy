/** The upload panel's title (`uploadTitle` in `Uploader.tsx`). */
module UploaderTitle {
  import opened Wrappers
  import opened Decimal
  import opened Records

  /** An entry of the uploader's `uploads` list, as far as the title uses it. */
  datatype UploadItem = UploadItem(id: string, completed: bool)

  function Completed(uploads: seq<UploadItem>): seq<UploadItem>
  {
    Filter(uploads, (u: UploadItem) => u.completed)
  }

  function Pending(uploads: seq<UploadItem>): seq<UploadItem>
  {
    Filter(uploads, (u: UploadItem) => !u.completed)
  }

  /** The two filters split the list: every upload is counted exactly once. */
  lemma {:induction false} CountsPartition(uploads: seq<UploadItem>)
    ensures |Completed(uploads)| + |Pending(uploads)| == |uploads|
    decreases |uploads|
  {
    if uploads != [] {
      CountsPartition(uploads[1..]);
    }
  }

  /** The plural suffix: "s" exactly for counts above one. */
  function Plural(n: nat): (s: string)
    ensures s == "s" <==> n > 1
    ensures s == "" <==> n <= 1
  {
    if n > 1 then "s" else ""
  }

  /** `uploadTitle`: the phase (any upload still pending, or none), then
      the count and the noun. */
  function UploadTitle(uploads: seq<UploadItem>): (t: string)
    ensures |Pending(uploads)| > 0 ==> |t| > 10 && t[..10] == "Uploading "
    ensures |Pending(uploads)| == 0 ==> |t| > 9 && t[..9] == "Uploaded "
    ensures var n := if |Pending(uploads)| > 0 then |Pending(uploads)| else |Completed(uploads)|;
      && |t| > 6
      && (n > 1 ==> t[|t| - 6..] == " files")
      && (n <= 1 ==> t[|t| - 5..] == " file")
  {
    var uploadedCount := |Completed(uploads)|;
    var currentlyUploadingCount := |Pending(uploads)|;
    if currentlyUploadingCount != 0 then
      "Uploading " + NatToString(currentlyUploadingCount) + " file" + Plural(currentlyUploadingCount)
    else
      "Uploaded " + NatToString(uploadedCount) + " file" + Plural(uploadedCount)
  }

  /** What a title says: whether uploads are in progress, and how many
      files it counts. */
  datatype TitleReading = TitleReading(inProgress: bool, count: nat)

  /** The length of the leading run of digits. */
  function DigitRun(s: string): (n: nat)
    ensures n <= |s| && AllDigits(s[..n])
    ensures n < |s| ==> !IsDigit(s[n])
    decreases |s|
  {
    if s == [] || !IsDigit(s[0]) then 0
    else
      var k := DigitRun(s[1..]);
      assert s[..k + 1] == [s[0]] + s[1..][..k];
      k + 1
  }

  /** Read a title back: the verb, the number, and the noun, which must be
      " files" for a number above one and " file" otherwise. */
  function ReadTitle(title: string): Option<TitleReading>
  {
    var uploading, uploaded := "Uploading ", "Uploaded ";
    var (inProgress, rest) :=
      if |title| >= |uploading| && title[..|uploading|] == uploading then (true, title[|uploading|..])
      else if |title| >= |uploaded| && title[..|uploaded|] == uploaded then (false, title[|uploaded|..])
      else (false, "");
    var n := DigitRun(rest);
    if n == 0 || rest[n..] != " file" + Plural(ParseDecimal(rest[..n])) then None
    else Some(TitleReading(inProgress, ParseDecimal(rest[..n])))
  }

  lemma DigitRunOfNumber(n: nat, tail: string)
    requires tail != [] && !IsDigit(tail[0])
    ensures DigitRun(NatToString(n) + tail) == |NatToString(n)|
  {
    var d := NatToString(n);
    DigitRunPrefix(d, tail);
  }

  /** The digit run of digits followed by a non-digit is exactly the digits. */
  lemma DigitRunPrefix(d: string, tail: string)
    requires AllDigits(d) && tail != [] && !IsDigit(tail[0])
    ensures DigitRun(d + tail) == |d|
  {
    var s := d + tail;
    var n := DigitRun(s);
    assert forall j :: 0 <= j < |d| ==> s[j] == d[j];
    assert s[|d|] == tail[0];
  }

  /** The count and its noun read back from the part after the verb. */
  lemma CountReadsBack(n: nat)
    ensures var rest := NatToString(n) + " file" + Plural(n);
      var k := DigitRun(rest);
      && k == |NatToString(n)| && rest[..k] == NatToString(n)
      && rest[k..] == " file" + Plural(n)
  {
    var d, noun := NatToString(n), " file" + Plural(n);
    assert d + " file" + Plural(n) == d + noun;
    DigitRunOfNumber(n, noun);
    assert (d + noun)[..|d|] == d && (d + noun)[|d|..] == noun;
  }

  lemma VerbReadsBack(inProgress: bool, n: nat)
    ensures var verb := if inProgress then "Uploading " else "Uploaded ";
      ReadTitle(verb + NatToString(n) + " file" + Plural(n)) == Some(TitleReading(inProgress, n))
  {
    var verb := if inProgress then "Uploading " else "Uploaded ";
    var rest := NatToString(n) + " file" + Plural(n);
    var title := verb + NatToString(n) + " file" + Plural(n);
    assert title == verb + rest;
    assert title[..|verb|] == verb && title[|verb|..] == rest;
    if !inProgress {
      assert title[..|"Uploading "|] != "Uploading " by {
        assert title[6] == 'e' && "Uploading "[6] == 'i';
      }
    }
    CountReadsBack(n);
    ParseNatToString(n);
  }

  /** The title states the phase and the count, with the noun agreeing:
      "Uploading" with the number still in progress while any is,
      "Uploaded" with the number completed otherwise. */
  lemma TitleRoundTrip(uploads: seq<UploadItem>)
    ensures var pending, done := |Pending(uploads)|, |Completed(uploads)|;
      ReadTitle(UploadTitle(uploads))
        == Some(if pending > 0 then TitleReading(true, pending) else TitleReading(false, done))
  {
    var pending, done := |Pending(uploads)|, |Completed(uploads)|;
    if pending > 0 {
      VerbReadsBack(true, pending);
    } else {
      VerbReadsBack(false, done);
    }
  }

  /** With nothing in the list the title reads "Uploaded 0 file". */
  lemma EmptyListTitle()
    ensures UploadTitle([]) == "Uploaded 0 file"
  {
    assert NatToString(0) == "0";
  }
}
