/**
 * The build script that groups the result GIFs by the number their file
 * name starts with: `12.gif` and `12.b.gif` both land in group 12, as
 * entries `{name: "12"}` and `{name: "12.b"}`, in listing order.
 */
module GifConfig {
  import opened Basics
  import opened Decimal

  /** A property key of `gifConfig`: the number `parseInt` read, or `NaN` when it read none. */
  datatype GroupKey = Number(n: int) | NaN

  /** `{name: ...}`. */
  datatype Entry = Entry(name: string)

  type Config = map<GroupKey, seq<Entry>>

  /** `file.endsWith('.gif')`. */
  predicate IsGif(file: string) {
    |file| >= 4 && file[|file| - 4..] == ".gif"
  }

  /** `s.split(c)[0]`: the text before the first `c`, or all of `s` when there is none. */
  function BeforeFirst(s: string, c: char): (r: string)
    ensures r <= s && c !in r
    ensures |r| < |s| ==> s[|r|] == c
  {
    if s == [] || s[0] == c then []
    else [s[0]] + BeforeFirst(s[1..], c)
  }

  /** `parseInt(file.split('.')[0], 10)`, as the key it becomes. */
  function FileNumber(file: string): GroupKey {
    match ParseInt(BeforeFirst(file, '.'))
      case Some(n) => Number(n)
      case None => NaN
  }

  /** `s.replace(pattern, '')` with a text pattern: drops the first occurrence only. */
  function RemoveFirst(s: string, pattern: string): (r: string)
    requires pattern != []
    ensures |r| == |s| || |r| == |s| - |pattern|
    decreases |s|
  {
    if |s| < |pattern| then s
    else if s[..|pattern|] == pattern then s[|pattern|..]
    else [s[0]] + RemoveFirst(s[1..], pattern)
  }

  /** `file.replace('.gif', '')`. */
  function EntryName(file: string): string {
    RemoveFirst(file, ".gif")
  }

  /** The entries of group `k`, in the order their files were listed. */
  function Group(files: seq<string>, k: GroupKey): (entries: seq<Entry>)
    ensures |entries| <= |files|
  {
    if files == [] then []
    else
      var file := files[|files| - 1];
      Group(files[..|files| - 1], k) + (if IsGif(file) && FileNumber(file) == k then [Entry(EntryName(file))] else [])
  }

  /** The groups some `.gif` file falls into. */
  function GroupKeys(files: seq<string>): set<GroupKey> {
    if files == [] then {}
    else
      var file := files[|files| - 1];
      GroupKeys(files[..|files| - 1]) + (if IsGif(file) then {FileNumber(file)} else {})
  }

  /** File `i` of the listing is a `.gif` whose file number is `k`. */
  predicate GifAt(files: seq<string>, i: int, k: GroupKey) {
    0 <= i < |files| && IsGif(files[i]) && FileNumber(files[i]) == k
  }

  /** A group exists exactly for the file numbers of the `.gif` files. */
  lemma {:induction false} GroupKeysOfGifs(files: seq<string>, k: GroupKey)
    ensures k in GroupKeys(files) <==> exists i :: GifAt(files, i, k)
  {
    if files != [] {
      var n := |files| - 1;
      GroupKeysOfGifs(files[..n], k);
      GroupKeysStep(files, k);
      if k in GroupKeys(files[..n]) {
        var i :| GifAt(files[..n], i, k);
        GifAtFront(files, i, k);
      }
      forall i | GifAt(files, i, k) ensures k in GroupKeys(files) {
        if i < n {
          GifAtFront(files, i, k);
        }
      }
    }
  }

  lemma GroupKeysStep(files: seq<string>, k: GroupKey)
    requires files != []
    ensures k in GroupKeys(files) <==> k in GroupKeys(files[..|files| - 1]) || GifAt(files, |files| - 1, k)
  {
  }

  lemma GifAtFront(files: seq<string>, i: int, k: GroupKey)
    requires 0 <= i < |files| - 1
    ensures GifAt(files, i, k) <==> GifAt(files[..|files| - 1], i, k)
  {
    assert files[..|files| - 1][i] == files[i];
  }

  /** The object the script writes: each group key with its entries. */
  function Grouping(files: seq<string>): Config {
    map k | k in GroupKeys(files) :: Group(files, k)
  }

  /** The `.gif` files of the listing, in order. */
  function Gifs(files: seq<string>): (gifs: seq<string>)
    ensures |gifs| <= |files|
    ensures forall f :: f in gifs <==> f in files && IsGif(f)
  {
    if files == [] then []
    else Gifs(files[..|files| - 1]) + (if IsGif(files[|files| - 1]) then [files[|files| - 1]] else [])
  }

  /** Each `.gif` file occurs in `Gifs` as often as in the listing, and no other file does. */
  lemma {:induction false} GifsCount(files: seq<string>, f: string)
    ensures multiset(Gifs(files))[f] == if IsGif(f) then multiset(files)[f] else 0
  {
    if files != [] {
      var front, file := files[..|files| - 1], files[|files| - 1];
      assert files == front + [file];
      GifsCount(front, f);
    }
  }

  /** `Gifs` keeps the listing order: the `.gif` files of two listings in a row are those of the first, then those of the second. */
  lemma {:induction false} GifsConcat(a: seq<string>, b: seq<string>)
    ensures Gifs(a + b) == Gifs(a) + Gifs(b)
  {
    if b != [] {
      var front, file := b[..|b| - 1], b[|b| - 1];
      assert (a + b)[..|a + b| - 1] == a + front;
      GifsConcat(a, front);
    } else {
      assert a + b == a;
    }
  }

  lemma GroupAppend(files: seq<string>, file: string, k: GroupKey)
    ensures Group(files + [file], k) == Group(files, k) + (if IsGif(file) && FileNumber(file) == k then [Entry(EntryName(file))] else [])
  {
    assert (files + [file])[..|files|] == files;
  }

  lemma GroupKeysAppend(files: seq<string>, file: string)
    ensures GroupKeys(files + [file]) == GroupKeys(files) + (if IsGif(file) then {FileNumber(file)} else {})
  {
    assert (files + [file])[..|files|] == files;
  }

  /**
   * One more `.gif` file appends its entry to its own group (creating it
   * when new) and leaves every other group as it was.
   */
  lemma GroupingAppendGif(files: seq<string>, file: string)
    requires IsGif(file)
    ensures var before, k := Grouping(files), FileNumber(file);
            Grouping(files + [file]) == before[k := (if k in before then before[k] else []) + [Entry(EntryName(file))]]
  {
    var before, after := Grouping(files), Grouping(files + [file]);
    var k := FileNumber(file);
    GroupKeysAppend(files, file);
    if k !in before {
      GroupOutsideKeys(files, k);
    }
    var expected := before[k := (if k in before then before[k] else []) + [Entry(EntryName(file))]];
    forall g | g in after ensures after[g] == expected[g] {
      GroupAppend(files, file, g);
    }
    assert after.Keys == expected.Keys;
  }

  /** One more file that is not a `.gif` changes nothing. */
  lemma GroupingAppendOther(files: seq<string>, file: string)
    requires !IsGif(file)
    ensures Grouping(files + [file]) == Grouping(files)
  {
    var before, after := Grouping(files), Grouping(files + [file]);
    GroupKeysAppend(files, file);
    forall g | g in after ensures after[g] == before[g] {
      GroupAppend(files, file, g);
    }
    assert after.Keys == before.Keys;
  }

  /** A key none of the `.gif` files falls into has no entries. */
  lemma {:induction false} GroupOutsideKeys(files: seq<string>, k: GroupKey)
    requires k !in GroupKeys(files)
    ensures Group(files, k) == []
  {
    if files != [] {
      GroupOutsideKeys(files[..|files| - 1], k);
    }
  }

  /** Every group written has at least one entry. */
  lemma {:induction false} GroupsAreNonEmpty(files: seq<string>, k: GroupKey)
    requires k in Grouping(files)
    ensures Grouping(files)[k] != []
  {
    GroupKeysOfGifs(files, k);
    var i :| GifAt(files, i, k);
    EntryOfFile(files, i);
  }

  /** How many `.gif` files before position `i` share key `k`. */
  function CountBefore(files: seq<string>, i: nat, k: GroupKey): nat
    requires i <= |files|
  {
    |Group(files[..i], k)|
  }

  lemma {:induction false} GroupPrefix(files: seq<string>, i: nat, k: GroupKey)
    requires i <= |files|
    ensures Group(files[..i], k) <= Group(files, k)
    decreases |files| - i
  {
    if i < |files| {
      var front := files[..|files| - 1];
      assert front[..i] == files[..i];
      GroupPrefix(front, i, k);
    } else {
      assert files[..i] == files;
    }
  }

  /**
   * Each `.gif` file contributes the entry named after it to the group of
   * its file number, at the position given by the `.gif` files of that key
   * listed before it.
   */
  lemma EntryOfFile(files: seq<string>, i: nat)
    requires i < |files| && IsGif(files[i])
    ensures FileNumber(files[i]) in Grouping(files)
    ensures var k := FileNumber(files[i]);
            CountBefore(files, i, k) < |Grouping(files)[k]| &&
            Grouping(files)[k][CountBefore(files, i, k)] == Entry(EntryName(files[i]))
  {
    var k := FileNumber(files[i]);
    GroupKeysOfGifs(files, k);
    assert GifAt(files, i, k);
    var upto := files[..i + 1];
    assert upto[..i] == files[..i] && upto[i] == files[i];
    assert Group(upto, k) == Group(files[..i], k) + [Entry(EntryName(files[i]))];
    GroupPrefix(files, i + 1, k);
  }

  /** Files listed earlier have their entries earlier in the group they share. */
  lemma EntriesKeepListingOrder(files: seq<string>, i: nat, j: nat)
    requires i < j < |files| && IsGif(files[i]) && IsGif(files[j])
    requires FileNumber(files[i]) == FileNumber(files[j])
    ensures CountBefore(files, i, FileNumber(files[i])) < CountBefore(files, j, FileNumber(files[j]))
  {
    var k := FileNumber(files[i]);
    var pre := files[..j];
    assert pre[..i + 1] == files[..i + 1];
    GroupPrefix(pre, i + 1, k);
    var upto := files[..i + 1];
    assert upto[..i] == files[..i] && upto[i] == files[i];
    assert Group(upto, k) == Group(files[..i], k) + [Entry(EntryName(files[i]))];
  }

  /** The sum of the group sizes over the keys in `ks`. */
  ghost function EntryCount(config: Config, ks: set<GroupKey>): nat
    requires ks <= config.Keys
    decreases ks
  {
    if ks == {} then 0
    else
      var k :| k in ks;
      |config[k]| + EntryCount(config, ks - {k})
  }

  lemma {:induction false} EntryCountWithout(config: Config, ks: set<GroupKey>, k: GroupKey)
    requires ks <= config.Keys && k in ks
    ensures EntryCount(config, ks) == |config[k]| + EntryCount(config, ks - {k})
    decreases ks
  {
    var j :| j in ks && EntryCount(config, ks) == |config[j]| + EntryCount(config, ks - {j});
    if j != k {
      EntryCountWithout(config, ks - {j}, k);
      EntryCountWithout(config, ks - {k}, j);
      assert ks - {j} - {k} == ks - {k} - {j};
    }
  }

  lemma {:induction false} EntryCountUpdate(config: Config, ks: set<GroupKey>, k: GroupKey, v: seq<Entry>)
    requires ks <= config.Keys && k !in ks
    ensures EntryCount(config[k := v], ks) == EntryCount(config, ks)
    decreases ks
  {
    if ks != {} {
      var j :| j in ks;
      EntryCountWithout(config, ks, j);
      EntryCountWithout(config[k := v], ks, j);
      EntryCountUpdate(config, ks - {j}, k, v);
    }
  }

  /** Every `.gif` file contributes exactly one entry: the groups hold as many entries as there are `.gif` files. */
  lemma {:induction false} EntriesCountGifs(files: seq<string>)
    ensures EntryCount(Grouping(files), Grouping(files).Keys) == |Gifs(files)|
  {
    if files == [] {
      assert Grouping(files) == map[];
    } else {
      var front, file := files[..|files| - 1], files[|files| - 1];
      assert files == front + [file];
      EntriesCountGifs(front);
      if IsGif(file) {
        GroupingAppendGif(front, file);
        var old_, k := Grouping(front), FileNumber(file);
        var new_ := Grouping(files);
        var ks := old_.Keys - {k};
        EntryCountUpdate(old_, ks, k, new_[k]);
        assert new_.Keys - {k} == ks;
        EntryCountWithout(new_, new_.Keys, k);
        if k in old_ {
          EntryCountWithout(old_, old_.Keys, k);
        } else {
          assert old_.Keys == ks;
        }
      } else {
        GroupingAppendOther(front, file);
      }
    }
  }

  /** Creating a missing group and then pushing onto it is one update of the map. */
  lemma PushOnGroup(before: Config, created: Config, k: GroupKey, e: Entry)
    requires created == if k in before then before else before[k := []]
    ensures k in created
    ensures created[k := created[k] + [e]] == before[k := (if k in before then before[k] else []) + [e]]
  {
  }

  /** The script's loop: each `.gif` file's entry is pushed onto its group, created on first use. */
  method GenerateGifConfig(files: seq<string>) returns (gifConfig: Config)
    ensures gifConfig == Grouping(files)
  {
    gifConfig := map[];
    for i := 0 to |files|
      invariant gifConfig == Grouping(files[..i])
    {
      var file := files[i];
      assert files[..i + 1] == files[..i] + [file];
      if IsGif(file) {
        GroupingAppendGif(files[..i], file);
        var fileNumber := FileNumber(file);
        ghost var before := gifConfig;
        if fileNumber !in gifConfig {
          gifConfig := gifConfig[fileNumber := []];
        }
        PushOnGroup(before, gifConfig, fileNumber, Entry(EntryName(file)));
        gifConfig := gifConfig[fileNumber := gifConfig[fileNumber] + [Entry(EntryName(file))]];
      } else {
        GroupingAppendOther(files[..i], file);
      }
    }
    assert files[..|files|] == files;
  }

  /** `pattern` occurs in `s` at position `i`. */
  predicate OccursAt(s: string, pattern: string, i: nat) {
    i + |pattern| <= |s| && s[i..i + |pattern|] == pattern
  }

  /** The entry name of a file whose only `.gif` is its ending is the file name without it. */
  lemma EntryNameOfPlainGif(file: string)
    requires IsGif(file)
    requires forall i :: 0 <= i < |file| - 4 ==> !OccursAt(file, ".gif", i)
    ensures EntryName(file) == file[..|file| - 4]
  {
    RemoveFirstAtEnd(file, ".gif");
  }

  lemma {:induction false} RemoveFirstAtEnd(s: string, pattern: string)
    requires pattern != [] && |s| >= |pattern| && s[|s| - |pattern|..] == pattern
    requires forall i :: 0 <= i < |s| - |pattern| ==> !OccursAt(s, pattern, i)
    ensures RemoveFirst(s, pattern) == s[..|s| - |pattern|]
    decreases |s|
  {
    if |s| > |pattern| {
      assert !OccursAt(s, pattern, 0);
      assert s[..|pattern|] == s[0..|pattern|];
      var t := s[1..];
      NoOccurrenceInTail(s, pattern);
      assert t[|t| - |pattern|..] == s[|s| - |pattern|..];
      RemoveFirstAtEnd(t, pattern);
      assert [s[0]] + t[..|t| - |pattern|] == s[..|s| - |pattern|];
    } else {
      assert s[..|pattern|] == s[|s| - |pattern|..];
      assert s[|pattern|..] == [] && s[..|s| - |pattern|] == [];
    }
  }

  lemma NoOccurrenceInTail(s: string, pattern: string)
    requires |s| > |pattern|
    requires forall i :: 0 <= i < |s| - |pattern| ==> !OccursAt(s, pattern, i)
    ensures forall i :: 0 <= i < |s| - 1 - |pattern| ==> !OccursAt(s[1..], pattern, i)
  {
    var t := s[1..];
    forall i | 0 <= i < |t| - |pattern| ensures !OccursAt(t, pattern, i) {
      assert t[i..i + |pattern|] == s[i + 1..i + 1 + |pattern|];
      assert !OccursAt(s, pattern, i + 1);
    }
  }

  /** The text before the first `c` is everything up to it. */
  lemma {:induction false} BeforeFirstOf(a: string, c: char, b: string)
    requires c !in a
    ensures BeforeFirst(a + [c] + b, c) == a
  {
    if a != [] {
      assert (a + [c] + b)[1..] == a[1..] + [c] + b;
      BeforeFirstOf(a[1..], c, b);
    }
  }

  /** A file name that starts with digits and a dot falls into the group of those digits. */
  lemma FileNumberOfDigits(d: string, rest: string)
    requires d != [] && AllDigits(d)
    ensures FileNumber(d + "." + rest) == Number(DigitsValue(d))
  {
    assert '.' !in d by {
      forall i | 0 <= i < |d| ensures d[i] != '.' {
        assert IsDigit(d[i]);
      }
    }
    BeforeFirstOf(d, '.', rest);
    assert d == d + "";
    ParseIntOfDigits(d, "");
  }

  /** `replace` with a text pattern removes its first occurrence, wherever that is, and nothing else. */
  lemma {:induction false} RemoveFirstFirst(s: string, pattern: string, i: nat)
    requires pattern != [] && OccursAt(s, pattern, i)
    requires forall j :: 0 <= j < i ==> !OccursAt(s, pattern, j)
    ensures RemoveFirst(s, pattern) == s[..i] + s[i + |pattern|..]
    decreases i
  {
    if i == 0 {
      assert s[..|pattern|] == s[0..|pattern|];
    } else {
      var t := s[1..];
      RemoveFirstSkip(s, pattern);
      OccurrenceInTail(s, pattern, i);
      RemoveFirstFirst(t, pattern, i - 1);
      assert [s[0]] + t[..i - 1] == s[..i];
      assert t[i - 1 + |pattern|..] == s[i + |pattern|..];
    }
  }

  /** Without the pattern at the front, `replace` keeps the first character and works on the rest. */
  lemma RemoveFirstSkip(s: string, pattern: string)
    requires pattern != [] && |s| >= |pattern| && !OccursAt(s, pattern, 0)
    ensures RemoveFirst(s, pattern) == [s[0]] + RemoveFirst(s[1..], pattern)
  {
    assert s[..|pattern|] == s[0..|pattern|];
  }

  lemma OccurrenceInTail(s: string, pattern: string, i: nat)
    requires i > 0 && OccursAt(s, pattern, i)
    requires forall j :: 0 <= j < i ==> !OccursAt(s, pattern, j)
    ensures OccursAt(s[1..], pattern, i - 1)
    ensures forall j :: 0 <= j < i - 1 ==> !OccursAt(s[1..], pattern, j)
  {
    var t := s[1..];
    assert t[i - 1..i - 1 + |pattern|] == s[i..i + |pattern|];
    forall j | 0 <= j < i - 1 ensures !OccursAt(t, pattern, j) {
      assert t[j..j + |pattern|] == s[j + 1..j + 1 + |pattern|];
      assert !OccursAt(s, pattern, j + 1);
    }
  }

  /** `replace` leaves a text without the pattern as it is. */
  lemma {:induction false} RemoveFirstNone(s: string, pattern: string)
    requires pattern != []
    requires forall j: nat :: !OccursAt(s, pattern, j)
    ensures RemoveFirst(s, pattern) == s
    decreases |s|
  {
    if |s| >= |pattern| {
      assert !OccursAt(s, pattern, 0);
      RemoveFirstSkip(s, pattern);
      var t := s[1..];
      forall j: nat ensures !OccursAt(t, pattern, j) {
        if j + |pattern| <= |t| {
          assert t[j..j + |pattern|] == s[j + 1..j + 1 + |pattern|];
        }
        assert !OccursAt(s, pattern, j + 1);
      }
      RemoveFirstNone(t, pattern);
      assert [s[0]] + t == s;
    }
  }

  /** `replace` drops the pattern at the front. */
  lemma RemoveFirstAtFront(pattern: string, rest: string)
    requires pattern != []
    ensures RemoveFirst(pattern + rest, pattern) == rest
  {
    assert (pattern + rest)[..|pattern|] == pattern;
    assert (pattern + rest)[|pattern|..] == rest;
  }

  /**
   * A text ending in the pattern, in which the pattern's second character
   * (different from its first) does not occur before it, loses just that ending.
   */
  lemma {:induction false} RemoveFirstOfEnding(a: string, pattern: string)
    requires |pattern| >= 2 && pattern[1] != pattern[0] && pattern[1] !in a
    ensures RemoveFirst(a + pattern, pattern) == a
  {
    if a == [] {
      RemoveFirstAtFront(pattern, []);
      assert pattern + [] == pattern && [] + pattern == pattern;
    } else {
      var s := a + pattern;
      assert s[1] != pattern[1] by {
        if |a| >= 2 {
          assert s[1] == a[1];
        } else {
          assert s[1] == pattern[0];
        }
      }
      assert s[..|pattern|] != pattern by {
        assert s[..|pattern|][1] == s[1];
      }
      assert s[1..] == a[1..] + pattern;
      RemoveFirstOfEnding(a[1..], pattern);
    }
  }

  /** A `.gif` file without a `g` before its ending is named by what comes before it. */
  lemma EntryNameWithoutG(a: string)
    requires 'g' !in a
    ensures EntryName(a + ".gif") == a
  {
    RemoveFirstOfEnding(a, ".gif");
  }

  lemma TwelveValue()
    ensures DigitsValue("12") == 12
  {
    assert "12"[..1] == "1";
  }

  lemma SevenValue()
    ensures DigitsValue("007") == 7
  {
    assert "007"[..2] == "00";
    assert "00"[..1] == "0";
    assert DigitsValue("00") == 0;
  }

  /** `12.gif` is entry `12` of group 12. */
  lemma PlainNameExample()
    ensures FileNumber("12.gif") == Number(12) && EntryName("12.gif") == "12"
  {
    assert "12.gif" == "12" + "." + "gif" == "12" + ".gif";
    FileNumberOfDigits("12", "gif");
    TwelveValue();
    EntryNameWithoutG("12");
  }

  /** `12.b.gif` is in group 12, as is `12.gif`. */
  lemma DottedNumberExample()
    ensures FileNumber("12.b.gif") == Number(12)
  {
    assert "12.b.gif" == "12" + "." + "b.gif";
    FileNumberOfDigits("12", "b.gif");
    TwelveValue();
  }

  /** `12.b.gif` becomes entry `12.b`. */
  lemma DottedNameExample()
    ensures EntryName("12.b.gif") == "12.b"
  {
    assert "12.b.gif" == "12.b" + ".gif";
    EntryNameWithoutG("12.b");
  }

  /** Leading zeros do not make a separate group: `007.gif` is in group 7. */
  lemma LeadingZeroExample()
    ensures FileNumber("007.gif") == Number(7)
  {
    assert "007.gif" == "007" + "." + "gif";
    FileNumberOfDigits("007", "gif");
    SevenValue();
  }

  /** A name without a leading number falls into the `NaN` group. */
  lemma NaNExample()
    ensures FileNumber("x.gif") == NaN
  {
    assert BeforeFirst("x.gif", '.') == "x";
    ParseIntNaN("x");
  }

  /** `replace` drops the first `.gif` only: `3.gif.gif` becomes entry `3.gif`. */
  lemma DoubleExtensionExample()
    ensures EntryName("3.gif.gif") == "3.gif"
  {
    assert "3.gif.gif"[..4] == "3.gi" && "3.gif.gif"[1..] == ".gif.gif";
    assert ".gif.gif"[..4] == ".gif" && ".gif.gif"[4..] == ".gif";
  }
}
