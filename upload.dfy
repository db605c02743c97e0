/** The upload route's rules: which file names are accepted, how a name that
    is already taken on disk is made unique, and the display name stored for
    a new audio record. The disk and the database are sets of names; the
    name `secure_filename` gives each upload is an input. */
module Upload {
  import opened Text
  import opened PosixPath

  const AllowedExtensions: set<string> := {"mp3", "ogg", "wav", "flac", "m4a"}

  /** `allowed_file`: a '.' and, after the last one, an allowed extension in
      any letter case. */
  function AllowedFile(filename: string): (ok: bool)
    ensures ok ==> '.' in filename && 3 <= |AfterLast(filename, '.')| <= 4
  {
    '.' in filename && Lower(AfterLast(filename, '.')) in AllowedExtensions
  }

  /** The text after the last dot holds no dot. */
  lemma AfterLastDot(filename: string)
    requires '.' in filename
    ensures 0 <= RFind(filename, '.') && '.' !in filename[RFind(filename, '.') + 1..]
  {
    var j := RFind(filename, '.');
    var k :| 0 <= k < |filename| && filename[k] == '.';
    assert j >= k;
    var ext := filename[j + 1..];
    forall m | 0 <= m < |ext| ensures ext[m] != '.' {
      assert ext[m] == filename[j + 1 + m];
    }
  }

  /** A name is accepted exactly when it splits at some '.' into a stem and a
      dot-free extension that lower-cases to an allowed one. */
  lemma AllowedFileSpec(filename: string)
    ensures AllowedFile(filename) <==>
      exists i :: 0 <= i < |filename| && filename[i] == '.' && '.' !in filename[i + 1..]
                  && Lower(filename[i + 1..]) in AllowedExtensions
  {
    if AllowedFile(filename) {
      AfterLastDot(filename);
    } else {
      forall i | 0 <= i < |filename| && filename[i] == '.' && '.' !in filename[i + 1..]
        ensures Lower(filename[i + 1..]) !in AllowedExtensions
      {
        RFindLast(filename, '.', i);
      }
    }
  }

  /** A name without a dot is refused, even one that is an extension. */
  lemma NoDotRejected()
    ensures !AllowedFile("mp3")
  {
    var name := "mp3";
    forall m | 0 <= m < |name| ensures name[m] != '.' {
    }
  }

  lemma AcceptedExample()
    ensures AllowedFile("Berceuse.MP3")
  {
    var name := "Berceuse.MP3";
    assert '.' in name by { assert name[8] == '.'; }
    assert name == "Berceuse" + ['.'] + "MP3";
    AfterLastOfJoin("Berceuse", '.', "MP3");
    assert Lower(AfterLast(name, '.')) == "mp3" by {
      var ext := Lower("MP3");
      assert ext[0] == 'm' && ext[1] == 'p' && ext[2] == '3';
    }
  }

  lemma RejectedExample()
    ensures !AllowedFile("notes.txt")
  {
    var name := "notes.txt";
    assert name == "notes" + ['.'] + "txt";
    AfterLastOfJoin("notes", '.', "txt");
    var ext := Lower("txt");
    assert ext[0] == 't';
  }

  /** Names whose suffix survives appending `_<k>` to the stem: all but those
      ending in '.', which `secure_filename` never produces. */
  predicate StableSuffix(name: string)
  {
    name == [] || name[|name| - 1] != '.'
  }

  /** The k-th alternative the upload tries for a taken name: `stem_k.suffix`. */
  function Candidate(name: string, k: nat): (r: string)
    ensures |r| == |name| + 1 + |Decimal(k)|
    ensures r != name
  {
    StemSuffix(name);
    Stem(name) + "_" + Decimal(k) + Suffix(name)
  }

  lemma DigitsHaveNoDot(k: nat)
    ensures '.' !in "_" + Decimal(k)
  {
    var d := Decimal(k);
    forall c | c in "_" + d ensures c != '.' {
      var m :| 0 <= m < |"_" + d| && ("_" + d)[m] == c;
      if m > 0 {
        assert c == d[m - 1];
      }
    }
  }

  /** Inserting dot-free text between a name's stem and its suffix keeps
      the suffix. */
  lemma SuffixAfterInsert(name: string, mid: string)
    requires name != [] && StableSuffix(name)
    requires mid != [] && '.' !in mid
    ensures Suffix(Stem(name) + mid + Suffix(name)) == Suffix(name)
  {
    var i := RFind(name, '.');
    if 0 < i < |name| - 1 {
      var sfx := name[i..];
      var prefix := name[..i] + mid;
      assert Stem(name) + mid + Suffix(name) == prefix + sfx;
      forall m | 0 < m < |sfx| ensures sfx[m] != '.' {
        assert sfx[m] == name[i + m];
      }
      assert RFind(sfx, '.') == 0;
      RFindAppend(prefix, sfx, '.');
      assert (prefix + sfx)[|prefix|..] == sfx;
    } else {
      assert Stem(name) + mid + Suffix(name) == name + mid;
      RFindAppend(name, mid, '.');
    }
  }

  /** The alternative names keep the original suffix. */
  lemma SuffixOfCandidate(name: string, k: nat)
    requires ValidPart(name) && StableSuffix(name)
    ensures Suffix(Candidate(name, k)) == Suffix(name)
  {
    var mid := "_" + Decimal(k);
    DigitsHaveNoDot(k);
    assert Stem(name) + "_" + Decimal(k) == Stem(name) + mid;
    SuffixAfterInsert(name, mid);
  }

  /** A taken name longer than the spelling of `counter` bounds `counter`
      by the longest taken name. */
  lemma CounterBound(counter: nat, dest: string, existing: set<string>)
    requires dest in existing && |dest| > |Decimal(counter)|
    ensures counter < Pow10(MaxLen(existing))
  {
    DecimalLengthBound(counter);
    Pow10Monotone(|Decimal(counter)|, MaxLen(existing));
  }

  /** The name the loop tries next is the next alternative. */
  lemma NextCandidate(name: string, dest: string, counter: nat)
    requires ValidPart(name) && StableSuffix(name) && counter >= 1
    requires counter == 1 ==> dest == name
    requires counter > 1 ==> dest == Candidate(name, counter - 1)
    ensures Stem(name) + "_" + Decimal(counter) + Suffix(dest) == Candidate(name, counter)
  {
    if counter > 1 {
      SuffixOfCandidate(name, counter - 1);
    }
  }

  /** The largest length among a finite set of names. */
  ghost function MaxLen(names: set<string>): (m: nat)
    ensures forall s :: s in names ==> |s| <= m
    decreases names
  {
    if names == {} then 0
    else
      var s :| s in names;
      var rest := MaxLen(names - {s});
      if |s| > rest then |s| else rest
  }

  /** `dest` is the name itself or one of its alternatives. */
  ghost predicate DedupedFrom(dest: string, name: string)
  {
    dest == name || exists k :: k >= 1 && dest == Candidate(name, k)
  }

  /** The upload's duplicate-name loop: while the name is taken, try
      `stem_<counter>` followed by the current name's suffix. */
  method UniqueName(name: string, existing: set<string>) returns (dest: string)
    requires ValidPart(name)
    ensures dest !in existing
    ensures name !in existing ==> dest == name
    ensures StableSuffix(name) ==> DedupedFrom(dest, name)
    ensures StableSuffix(name) && name in existing ==>
      exists k :: k >= 1 && dest == Candidate(name, k)
                  && forall j :: 1 <= j < k ==> Candidate(name, j) in existing
  {
    dest := name;
    var counter := 1;
    var stem := Stem(dest);
    ghost var bound := MaxLen(existing);
    while dest in existing
      invariant counter >= 1
      invariant counter == 1 ==> dest == name
      invariant counter > 1 ==> name in existing && |dest| > |Decimal(counter - 1)|
      invariant StableSuffix(name) && counter > 1 ==> dest == Candidate(name, counter - 1)
      invariant StableSuffix(name) ==> forall j :: 1 <= j < counter - 1 ==> Candidate(name, j) in existing
      decreases Pow10(bound) + 1 - counter
    {
      ghost var prev := dest;
      if counter > 1 {
        CounterBound(counter - 1, dest, existing);
      }
      if StableSuffix(name) {
        NextCandidate(name, dest, counter);
      }
      dest := stem + "_" + Decimal(counter) + Suffix(dest);
      counter := counter + 1;
      if StableSuffix(name) {
        forall j | 1 <= j < counter - 1 ensures Candidate(name, j) in existing {
          if j == counter - 2 {
            assert Candidate(name, j) == prev;
          }
        }
      }
    }
    if StableSuffix(name) && name in existing {
      assert dest == Candidate(name, counter - 1);
    }
  }

  /** The audio record's name: the stem with '_' and '-' turned into spaces. */
  function DisplayName(fileName: string): (r: string)
    ensures |r| == |Stem(fileName)|
    ensures forall i :: 0 <= i < |r| ==>
      r[i] == if Stem(fileName)[i] == '_' || Stem(fileName)[i] == '-' then ' ' else Stem(fileName)[i]
    ensures '_' !in r && '-' !in r
  {
    ReplaceChar(ReplaceChar(Stem(fileName), '_', ' '), '-', ' ')
  }

  /** One uploaded file: the name the browser sent, and what
      `secure_filename` made of it. */
  datatype UploadedFile = UploadedFile(filename: string, secured: string)

  /** A new audio record. */
  datatype AudioRecord = AudioRecord(name: string, filePath: string)

  datatype UploadResult =
    | NothingSelected
    | Saved(written: seq<string>, added: seq<AudioRecord>)

  /** The files the loop saves: a non-empty, allowed name. */
  predicate Accepted(f: UploadedFile)
  {
    f.filename != "" && AllowedFile(f.filename)
  }

  /** The files the loop saves, in the order they were sent. */
  function AcceptedFiles(files: seq<UploadedFile>): (r: seq<UploadedFile>)
    ensures |r| <= |files|
    ensures forall i :: 0 <= i < |r| ==> Accepted(r[i])
  {
    if files == [] then []
    else AcceptedFiles(files[..|files| - 1]) + (if Accepted(files[|files| - 1]) then [files[|files| - 1]] else [])
  }

  /** Every accepted file is saved, and only those. */
  lemma {:induction false} AcceptedFilesMembers(files: seq<UploadedFile>)
    ensures forall f :: f in AcceptedFiles(files) <==> f in files && Accepted(f)
    decreases |files|
  {
    if files != [] {
      var init := files[..|files| - 1];
      AcceptedFilesMembers(init);
      assert files == init + [files[|files| - 1]];
    }
  }

  /** The selection works piecewise, so the saved files keep their order. */
  lemma {:induction false} AcceptedFilesAppend(xs: seq<UploadedFile>, ys: seq<UploadedFile>)
    ensures AcceptedFiles(xs + ys) == AcceptedFiles(xs) + AcceptedFiles(ys)
    decreases |ys|
  {
    if ys == [] {
      assert xs + ys == xs;
    } else {
      var ys' := ys[..|ys| - 1];
      assert (xs + ys)[..|xs + ys| - 1] == xs + ys';
      AcceptedFilesAppend(xs, ys');
    }
  }

  /** The records added for the written names that the database lacked. */
  function NewRecords(written: seq<string>, stored: set<string>): seq<AudioRecord>
  {
    if written == [] then []
    else
      var w := written[|written| - 1];
      NewRecords(written[..|written| - 1], stored)
      + (if w !in stored then [AudioRecord(DisplayName(w), w)] else [])
  }

  lemma AcceptedFilesSnoc(files: seq<UploadedFile>, n: nat)
    requires n < |files|
    ensures AcceptedFiles(files[..n + 1]) ==
      AcceptedFiles(files[..n]) + (if Accepted(files[n]) then [files[n]] else [])
  {
    assert files[..n + 1][..n] == files[..n];
  }

  lemma NewRecordsSnoc(written: seq<string>, w: string, stored: set<string>)
    ensures NewRecords(written + [w], stored) ==
      NewRecords(written, stored) + (if w !in stored then [AudioRecord(DisplayName(w), w)] else [])
  {
    assert (written + [w])[..|written|] == written;
  }

  /** No name is written twice. */
  predicate Distinct(written: seq<string>)
  {
    forall i, j :: 0 <= i < j < |written| ==> written[i] != written[j]
  }

  /** `dest` is the name the duplicate-name loop picks for `name` when the
      names on disk and those written earlier are taken: it is free; it is
      `name` when that is free; otherwise it is `stem_k.suffix` for the
      smallest k whose name is free. */
  ghost predicate PickedFor(dest: string, name: string, onDisk: set<string>, earlier: seq<string>)
  {
    dest !in onDisk && dest !in earlier
    && (name !in onDisk && name !in earlier ==> dest == name)
    && (StableSuffix(name) && (name in onDisk || name in earlier) ==>
          exists k :: k >= 1 && dest == Candidate(name, k)
                      && forall j :: 1 <= j < k ==> Candidate(name, j) in onDisk || Candidate(name, j) in earlier)
  }

  /** Each written name is the one picked for its file, given the disk and
      the names written before it. */
  ghost predicate PickedAll(written: seq<string>, accepted: seq<UploadedFile>, onDisk: set<string>)
  {
    |written| == |accepted|
    && forall i {:trigger PickedFor(written[i], accepted[i].secured, onDisk, written[..i])} ::
         0 <= i < |written| ==> PickedFor(written[i], accepted[i].secured, onDisk, written[..i])
  }

  /** What `UniqueName` promises about the disk set the loop keeps is the
      pick relative to the original disk and the earlier names. */
  lemma PickedFromDisk(dest: string, name: string, disk: set<string>, onDisk: set<string>, earlier: seq<string>)
    requires forall w :: w in disk <==> w in onDisk || w in earlier
    requires dest !in disk
    requires name !in disk ==> dest == name
    requires StableSuffix(name) && name in disk ==>
      exists k :: k >= 1 && dest == Candidate(name, k)
                  && forall j :: 1 <= j < k ==> Candidate(name, j) in disk
    ensures PickedFor(dest, name, onDisk, earlier)
  {
    if StableSuffix(name) && name in disk {
      var k :| k >= 1 && dest == Candidate(name, k)
               && forall j :: 1 <= j < k ==> Candidate(name, j) in disk;
      assert forall j :: 1 <= j < k ==> Candidate(name, j) in onDisk || Candidate(name, j) in earlier;
    }
  }

  lemma PickedAllSnoc(written: seq<string>, accepted: seq<UploadedFile>, onDisk: set<string>,
                      w: string, f: UploadedFile)
    requires PickedAll(written, accepted, onDisk)
    requires PickedFor(w, f.secured, onDisk, written)
    ensures PickedAll(written + [w], accepted + [f], onDisk)
  {
    var ws, fs := written + [w], accepted + [f];
    forall i | 0 <= i < |ws| ensures PickedFor(ws[i], fs[i].secured, onDisk, ws[..i]) {
      if i < |written| {
        assert ws[i] == written[i] && fs[i] == accepted[i] && ws[..i] == written[..i];
      } else {
        assert ws[..i] == written;
      }
    }
  }

  /** Uploads whose secured names clash neither with the disk nor with each
      other are all saved under those names. */
  lemma {:induction false} NoClashKeepsNames(written: seq<string>, accepted: seq<UploadedFile>,
                                             onDisk: set<string>, n: nat)
    requires PickedAll(written, accepted, onDisk) && n <= |written|
    requires forall i :: 0 <= i < |accepted| ==> accepted[i].secured !in onDisk
    requires forall i, j :: 0 <= i < j < |accepted| ==> accepted[i].secured != accepted[j].secured
    ensures forall i :: 0 <= i < n ==> written[i] == accepted[i].secured
  {
    if n > 0 {
      NoClashKeepsNames(written, accepted, onDisk, n - 1);
      var name := accepted[n - 1].secured;
      assert name !in written[..n - 1] by {
        forall m | 0 <= m < n - 1 ensures written[m] != name {
          assert written[m] == accepted[m].secured;
        }
      }
      assert PickedFor(written[n - 1], name, onDisk, written[..n - 1]);
    }
  }

  /** Picked names are off the disk and pairwise different. */
  lemma PickedAllDistinct(written: seq<string>, accepted: seq<UploadedFile>, onDisk: set<string>)
    requires PickedAll(written, accepted, onDisk)
    ensures Distinct(written)
    ensures forall i :: 0 <= i < |written| ==> written[i] !in onDisk
  {
    forall i, j | 0 <= i < j < |written| ensures written[i] != written[j] {
      assert PickedFor(written[j], accepted[j].secured, onDisk, written[..j]);
      assert written[i] == written[..j][i];
    }
    forall i | 0 <= i < |written| ensures written[i] !in onDisk {
      assert PickedFor(written[i], accepted[i].secured, onDisk, written[..i]);
    }
  }

  /** One turn of the upload loop for an accepted file: the name the
      duplicate-name loop picks is written to disk and, unless the database
      already has it, gets a record. The record query also sees the records
      added earlier in the same request, but their names are on `disk`, so
      the picked name is none of them. */
  method SaveAccepted(f: UploadedFile, disk: set<string>, written: seq<string>, added: seq<AudioRecord>,
                      stored: set<string>, ghost onDisk: set<string>, ghost accepted: seq<UploadedFile>)
    returns (disk': set<string>, written': seq<string>, added': seq<AudioRecord>)
    requires ValidPart(f.secured)
    requires PickedAll(written, accepted, onDisk)
    requires forall w :: w in disk <==> w in onDisk || w in written
    requires added == NewRecords(written, stored)
    ensures PickedAll(written', accepted + [f], onDisk)
    ensures forall w :: w in disk' <==> w in onDisk || w in written'
    ensures added' == NewRecords(written', stored)
  {
    var dest := UniqueName(f.secured, disk);
    PickedFromDisk(dest, f.secured, disk, onDisk, written);
    PickedAllSnoc(written, accepted, onDisk, dest, f);
    NewRecordsSnoc(written, dest, stored);
    disk' := disk + {dest};
    written' := written + [dest];
    added' := added;
    if dest !in stored {
      added' := added + [AudioRecord(DisplayName(dest), dest)];
    }
  }

  /** The route's loop over the uploaded files: each accepted file is saved
      under the name picked for it, given the disk and the names written
      before it. */
  method SaveAll(files: seq<UploadedFile>, onDisk: set<string>, stored: set<string>)
    returns (written: seq<string>, added: seq<AudioRecord>)
    requires forall i :: 0 <= i < |files| ==> Accepted(files[i]) ==> ValidPart(files[i].secured)
    ensures PickedAll(written, AcceptedFiles(files), onDisk)
    ensures added == NewRecords(written, stored)
  {
    var disk := onDisk;
    written, added := [], [];
    for n := 0 to |files|
      invariant PickedAll(written, AcceptedFiles(files[..n]), onDisk)
      invariant forall w :: w in disk <==> w in onDisk || w in written
      invariant added == NewRecords(written, stored)
    {
      var f := files[n];
      ghost var accepted := AcceptedFiles(files[..n]);
      AcceptedFilesSnoc(files, n);
      if Accepted(f) {
        disk, written, added := SaveAccepted(f, disk, written, added, stored, onDisk, accepted);
        assert AcceptedFiles(files[..n + 1]) == accepted + [f];
      } else {
        assert AcceptedFiles(files[..n + 1]) == accepted;
      }
    }
    assert files[..|files|] == files;
  }

  /** The upload route: nothing is selected when every file name is empty;
      otherwise each accepted file gets a name free on disk (the names
      written earlier in the same request included) and, unless the
      database already has that file name, a new audio record. */
  method UploadFiles(files: seq<UploadedFile>, onDisk: set<string>, stored: set<string>)
    returns (r: UploadResult)
    requires forall i :: 0 <= i < |files| ==> Accepted(files[i]) ==> ValidPart(files[i].secured)
    ensures r.NothingSelected? <==> forall i :: 0 <= i < |files| ==> files[i].filename == ""
    ensures r.Saved? ==> |r.written| == |AcceptedFiles(files)|
    ensures r.Saved? ==> Distinct(r.written)
    ensures r.Saved? ==> forall i :: 0 <= i < |r.written| ==> r.written[i] !in onDisk
    ensures r.Saved? ==> PickedAll(r.written, AcceptedFiles(files), onDisk)
    ensures r.Saved? ==> r.added == NewRecords(r.written, stored)
  {
    if forall i :: 0 <= i < |files| ==> files[i].filename == "" {
      return NothingSelected;
    }
    var written, added := SaveAll(files, onDisk, stored);
    PickedAllDistinct(written, AcceptedFiles(files), onDisk);
    r := Saved(written, added);
  }
}
