// The filter table, event_filter and build_filter of find_time/main.py:21-44,
// and the selection loop of lines 101-125 that numbers the blocks it prints.
//
// Turning the threshold text into a number (float(val)) is a parameter,
// `parse`, that answers None where Python's float() would raise.
module Filtering {
  import opened Calendar
  import opened Wrappers

  /** A parsed filter: 'none', or a duration threshold in hours. */
  datatype Filter = AcceptAll | MinHours(m: real) | MaxHours(m: real)

  /** Why applying a filter string raises: the threshold is not a number, or the key is not in the table. */
  datatype FilterError = BadThreshold(text: string) | UnknownFilter(key: string)

  /** minh accepts spans at least m hours long, maxh spans at most m hours long. */
  predicate Accepts(f: Filter, b: Block) {
    match f
    case AcceptAll => true
    case MinHours(m) => Duration(b) >= m
    case MaxHours(m) => Duration(b) <= m
  }

  /** ASCII lower-casing of one character. */
  function LowerChar(c: char): char {
    if 'A' <= c <= 'Z' then (c as int + 32) as char else c
  }

  function Lower(s: string): (r: string)
    ensures |r| == |s| && forall i :: 0 <= i < |s| ==> r[i] == LowerChar(s[i])
  {
    seq(|s|, i requires 0 <= i < |s| => LowerChar(s[i]))
  }

  /** The three parts str.partition returns. */
  datatype Parts = Parts(head: string, found: bool, tail: string)

  /** str.partition: split at the first occurrence of sep. */
  function Partition(s: string, sep: char): Parts
  {
    if s == [] then Parts([], false, [])
    else if s[0] == sep then Parts([], true, s[1..])
    else
      var p := Partition(s[1..], sep);
      Parts([s[0]] + p.head, p.found, p.tail)
  }

  /** Partition finds sep iff it occurs, and the head never holds it. */
  lemma {:induction false} PartitionFinds(s: string, sep: char)
    ensures Partition(s, sep).found <==> sep in s
    ensures sep !in Partition(s, sep).head
  {
    if s != [] && s[0] != sep {
      PartitionFinds(s[1..], sep);
      assert s == [s[0]] + s[1..];
    }
  }

  /**
   * The parts join back into the input: head + sep + tail when sep was found,
   * the whole input (and an empty tail) when not.
   */
  lemma {:induction false} PartitionJoins(s: string, sep: char)
    ensures Partition(s, sep).found ==> Partition(s, sep).head + [sep] + Partition(s, sep).tail == s
    ensures !Partition(s, sep).found ==> Partition(s, sep).head == s && Partition(s, sep).tail == []
  {
    if s != [] && s[0] != sep {
      var p := Partition(s[1..], sep);
      PartitionJoins(s[1..], sep);
      assert s == [s[0]] + s[1..];
      if p.found {
        assert [s[0]] + p.head + [sep] + p.tail == [s[0]] + (p.head + [sep] + p.tail);
      }
    }
  }

  /**
   * event_filter: 'none' in any letter case accepts everything; otherwise the
   * text splits at the first '=' into key and threshold.  The threshold is
   * converted before the key is looked up, so a bad number is reported even
   * when the key is unknown too.
   */
  function EventFilter(s: string, parse: string -> Option<real>): Result<Filter, FilterError>
  {
    if Lower(s) == "none" then Success(AcceptAll)
    else
      var parts := Partition(s, '=');
      match parse(parts.tail)
      case None => Failure(BadThreshold(parts.tail))
      case Some(m) =>
        if parts.head == "minh" then Success(MinHours(m))
        else if parts.head == "maxh" then Success(MaxHours(m))
        else Failure(UnknownFilter(parts.head))
  }

  /** Lowercasing yields the lowercase letter l exactly from l and from its capital. */
  lemma LowerCharIs(c: char, l: char)
    requires 'a' <= l <= 'z'
    ensures LowerChar(c) == l <==> c == l || c as int == l as int - 32
  {
  }

  /**
   * A filter string lowercases to 'none' exactly when it spells 'none' in
   * some mix of letter cases; such a string accepts every block, whatever the
   * threshold parser.
   */
  lemma NoneInAnyCase(s: string, parse: string -> Option<real>)
    ensures Lower(s) == "none" <==>
      |s| == 4 && s[0] in "nN" && s[1] in "oO" && s[2] in "nN" && s[3] in "eE"
    ensures |s| == 4 && s[0] in "nN" && s[1] in "oO" && s[2] in "nN" && s[3] in "eE" ==>
      EventFilter(s, parse) == Success(AcceptAll)
  {
    if |s| == 4 {
      LowerCharIs(s[0], 'n');
      LowerCharIs(s[1], 'o');
      LowerCharIs(s[2], 'n');
      LowerCharIs(s[3], 'e');
      var t := Lower(s);
      assert t == "none" <==> t[0] == 'n' && t[1] == 'o' && t[2] == 'n' && t[3] == 'e';
    }
  }

  /** A "minh=t" or "maxh=t" string yields that threshold filter iff t parses. */
  lemma ThresholdFilter(key: string, t: string, parse: string -> Option<real>)
    requires key == "minh" || key == "maxh"
    ensures EventFilter(key + "=" + t, parse).Success? <==> parse(t).Some?
    ensures parse(t).Some? ==>
      EventFilter(key + "=" + t, parse) ==
        Success(if key == "minh" then MinHours(parse(t).value) else MaxHours(parse(t).value))
  {
    KeyValueSplit(key, t);
    var s := key + "=" + t;
    match parse(t)
    case None =>
      assert EventFilter(s, parse) == Failure(BadThreshold(t));
    case Some(m) =>
      if key == "minh" {
        assert EventFilter(s, parse) == Success(MinHours(m));
      } else {
        assert key != "minh" by { assert key[1] != "minh"[1]; }
        assert EventFilter(s, parse) == Success(MaxHours(m));
      }
  }

  /** A filter string built from a table key splits back into that key and its threshold. */
  lemma KeyValueSplit(key: string, t: string)
    requires key == "minh" || key == "maxh"
    ensures Lower(key + "=" + t) != "none"
    ensures Partition(key + "=" + t, '=') == Parts(key, true, t)
  {
    var s := key + "=" + t;
    assert s[0] == 'm' && Lower(s)[0] == 'm';
    assert s[..4] == key && s[4] == '=' && s[5..] == t;
    PartitionAtFirst(s, '=', 4);
  }

  /** Partition splits at the first separator: everything before it is the head. */
  lemma {:induction false} PartitionAtFirst(s: string, sep: char, i: nat)
    requires i < |s| && s[i] == sep && sep !in s[..i]
    ensures Partition(s, sep) == Parts(s[..i], true, s[i + 1..])
  {
    if i > 0 {
      var t := s[1..];
      assert s[..i] == [s[0]] + t[..i - 1];
      assert s[0] != sep;
      PartitionAtFirst(t, sep, i - 1);
      assert t[i..] == s[i + 1..];
    }
  }

  /** An unknown key with a valid number is an error; the table has exactly minh and maxh. */
  lemma UnknownKeyRejected(s: string, parse: string -> Option<real>)
    requires Lower(s) != "none"
    requires parse(Partition(s, '=').tail).Some?
    ensures EventFilter(s, parse).Failure? <==> Partition(s, '=').head !in {"minh", "maxh"}
  {
  }

  /**
   * build_filter's apply_filter: the filters are converted and tried in list
   * order for each block; the first that rejects ends the test, so a malformed
   * filter after it is never reached.
   */
  function ApplyFilter(specs: seq<string>, parse: string -> Option<real>, b: Block): Result<bool, FilterError>
  {
    if specs == [] then Success(true)
    else
      match EventFilter(specs[0], parse)
      case Failure(e) => Failure(e)
      case Success(f) => if !Accepts(f, b) then Success(false) else ApplyFilter(specs[1..], parse, b)
  }

  /** An error raised while filtering is the error of one of the filter strings. */
  lemma {:induction false} FailureFromSomeFilter(specs: seq<string>, parse: string -> Option<real>, b: Block)
    requires ApplyFilter(specs, parse, b).Failure?
    ensures exists i :: 0 <= i < |specs| && EventFilter(specs[i], parse) == Failure(ApplyFilter(specs, parse, b).error)
  {
    match EventFilter(specs[0], parse)
    case Failure(e) =>
    case Success(f) =>
      FailureFromSomeFilter(specs[1..], parse, b);
      var i :| 0 <= i < |specs[1..]| && EventFilter(specs[1..][i], parse) == Failure(ApplyFilter(specs, parse, b).error);
      assert specs[1..][i] == specs[i + 1];
  }

  /** Every filter string converts without error. */
  predicate WellFormed(specs: seq<string>, parse: string -> Option<real>) {
    forall i :: 0 <= i < |specs| ==> EventFilter(specs[i], parse).Success?
  }

  /** With well-formed filters, a block passes iff every listed filter accepts it; [] accepts all. */
  lemma {:induction false} ApplyFilterIsConjunction(specs: seq<string>, parse: string -> Option<real>, b: Block)
    requires WellFormed(specs, parse)
    ensures ApplyFilter(specs, parse, b) ==
      Success(forall i :: 0 <= i < |specs| ==> Accepts(EventFilter(specs[i], parse).value, b))
  {
    if specs != [] {
      assert WellFormed(specs[1..], parse) by {
        forall i | 0 <= i < |specs[1..]|
          ensures EventFilter(specs[1..][i], parse).Success?
        {
          assert specs[1..][i] == specs[i + 1];
        }
      }
      ApplyFilterIsConjunction(specs[1..], parse, b);
      var all := forall i :: 0 <= i < |specs| ==> Accepts(EventFilter(specs[i], parse).value, b);
      var rest := forall i :: 0 <= i < |specs[1..]| ==> Accepts(EventFilter(specs[1..][i], parse).value, b);
      if Accepts(EventFilter(specs[0], parse).value, b) {
        assert rest ==> all by {
          if rest {
            forall i | 0 < i < |specs|
              ensures Accepts(EventFilter(specs[i], parse).value, b)
            {
              assert specs[1..][i - 1] == specs[i];
            }
          }
        }
        assert all ==> rest by {
          if all {
            forall i | 0 <= i < |specs[1..]|
              ensures Accepts(EventFilter(specs[1..][i], parse).value, b)
            {
              assert specs[1..][i] == specs[i + 1];
            }
          }
        }
      }
    }
  }

  /**
   * The filter of a concatenated list is the first list's filter, followed by
   * the second's only when the first lets the block through.
   */
  lemma {:induction false} ApplyFilterAppend(xs: seq<string>, ys: seq<string>, parse: string -> Option<real>, b: Block)
    ensures ApplyFilter(xs + ys, parse, b) ==
      if ApplyFilter(xs, parse, b) == Success(true) then ApplyFilter(ys, parse, b) else ApplyFilter(xs, parse, b)
  {
    if xs != [] {
      assert (xs + ys)[0] == xs[0] && (xs + ys)[1..] == xs[1..] + ys;
      ApplyFilterAppend(xs[1..], ys, parse, b);
    } else {
      assert xs + ys == ys;
    }
  }

  /** Filter conjunction: a block passes [f1, f2] iff it passes [f1] and passes [f2]. */
  lemma PairIsConjunction(f1: string, f2: string, parse: string -> Option<real>, b: Block)
    ensures ApplyFilter([f1, f2], parse, b) == Success(true) <==>
      ApplyFilter([f1], parse, b) == Success(true) && ApplyFilter([f2], parse, b) == Success(true)
  {
    ApplyFilterAppend([f1], [f2], parse, b);
    assert [f1] + [f2] == [f1, f2];
  }

  // ---------------------------------------------------------------------
  // Selecting and numbering the blocks to print

  /** A printed block and the number printed before it. */
  datatype Numbered = Numbered(index: nat, block: Block)

  function Blocks(shown: seq<Numbered>): (r: seq<Block>)
    ensures |r| == |shown| && forall k :: 0 <= k < |shown| ==> r[k] == shown[k].block
  {
    seq(|shown|, k requires 0 <= k < |shown| => shown[k].block)
  }

  /** A block is printed when it is non-empty (unless empty ones are shown) and passes the filter. */
  predicate Wanted(b: Block, showEmpty: bool, specs: seq<string>, parse: string -> Option<real>) {
    (showEmpty || NumAvailable(b) != 0) && ApplyFilter(specs, parse, b) == Success(true)
  }

  /** The wanted blocks of bs, in their order. */
  function Keep(bs: seq<Block>, showEmpty: bool, specs: seq<string>, parse: string -> Option<real>): seq<Block>
  {
    if bs == [] then []
    else Keep(bs[..|bs| - 1], showEmpty, specs, parse) +
         (if Wanted(bs[|bs| - 1], showEmpty, specs, parse) then [bs[|bs| - 1]] else [])
  }

  /** Keep holds exactly the wanted blocks of bs, and no more blocks than bs. */
  lemma {:induction false} KeepMembers(bs: seq<Block>, showEmpty: bool, specs: seq<string>, parse: string -> Option<real>)
    ensures |Keep(bs, showEmpty, specs, parse)| <= |bs|
    ensures forall x :: x in Keep(bs, showEmpty, specs, parse) <==> x in bs && Wanted(x, showEmpty, specs, parse)
  {
    if bs != [] {
      var init := bs[..|bs| - 1];
      KeepMembers(init, showEmpty, specs, parse);
      assert bs == init + [bs[|bs| - 1]];
    }
  }

  /** Keeping from a prefix yields a prefix of what is kept from the whole. */
  lemma {:induction false} KeepPrefix(bs: seq<Block>, i: nat, showEmpty: bool, specs: seq<string>, parse: string -> Option<real>)
    requires i <= |bs|
    ensures |Keep(bs[..i], showEmpty, specs, parse)| <= |Keep(bs, showEmpty, specs, parse)|
    ensures Keep(bs, showEmpty, specs, parse)[..|Keep(bs[..i], showEmpty, specs, parse)|] == Keep(bs[..i], showEmpty, specs, parse)
    decreases |bs| - i
  {
    if i < |bs| {
      KeepPrefix(bs[..|bs| - 1], i, showEmpty, specs, parse);
      assert bs[..|bs| - 1][..i] == bs[..i];
    } else {
      assert bs[..i] == bs;
    }
  }

  /** The first n elements, or all of them when there is no limit. */
  function Take(s: seq<Block>, limit: Option<nat>): (r: seq<Block>)
    ensures limit.Some? ==> |r| == if |s| < limit.value then |s| else limit.value
    ensures limit.None? ==> r == s
    ensures r == s[..|r|]
  {
    match limit
    case None => s
    case Some(n) => if n < |s| then s[..n] else s
  }

  /** --nprint: a negative count prints everything. */
  function Limit(nprint: int): (r: Option<nat>)
    ensures r.None? <==> nprint < 0
    ensures r.Some? ==> r.value == nprint
  {
    if nprint < 0 then None else Some(nprint)
  }

  /** Keeping from a longer prefix never keeps fewer blocks. */
  lemma KeepGrows(bs: seq<Block>, i: nat, j: nat, showEmpty: bool, specs: seq<string>, parse: string -> Option<real>)
    requires i <= j <= |bs|
    ensures |Keep(bs[..i], showEmpty, specs, parse)| <= |Keep(bs[..j], showEmpty, specs, parse)|
  {
    KeepPrefix(bs[..j], i, showEmpty, specs, parse);
    assert bs[..j][..i] == bs[..i];
  }

  /**
   * The loop reaches block j and runs the filter on it: fewer than nprint
   * blocks were printed before it, and it is not skipped as empty.
   */
  predicate Reached(blocks: seq<Block>, j: int, nprint: int, showEmpty: bool, specs: seq<string>,
                    parse: string -> Option<real>) {
    0 <= j < |blocks|
    && (nprint < 0 || |Keep(blocks[..j], showEmpty, specs, parse)| < nprint)
    && (showEmpty || NumAvailable(blocks[j]) != 0)
  }

  /**
   * The printing loop of find_time/main.py:101-125.  It stops once `nprint`
   * blocks are printed, skips empty blocks unless showEmpty, skips blocks the
   * filter rejects, and numbers the printed blocks 1, 2, ....  A malformed
   * filter raises when it is first reached; `failure` reports that error, and
   * the blocks printed before it are kept.  `failure` is set exactly when the
   * filter fails on some block the loop reaches, and it is the error of the
   * first such block.
   */
  method SelectBlocks(blocks: seq<Block>, nprint: int, showEmpty: bool, specs: seq<string>,
                      parse: string -> Option<real>)
    returns (shown: seq<Numbered>, failure: Option<FilterError>)
    ensures forall k :: 0 <= k < |shown| ==> shown[k].index == k + 1
    ensures nprint >= 0 ==> |shown| <= nprint
    ensures failure.None? ==> Blocks(shown) == Take(Keep(blocks, showEmpty, specs, parse), Limit(nprint))
    ensures failure.None? ==>
      forall j :: Reached(blocks, j, nprint, showEmpty, specs, parse) ==> ApplyFilter(specs, parse, blocks[j]).Success?
    ensures failure.Some? ==>
      exists j :: Reached(blocks, j, nprint, showEmpty, specs, parse)
        && Blocks(shown) == Keep(blocks[..j], showEmpty, specs, parse)
        && ApplyFilter(specs, parse, blocks[j]) == Failure(failure.value)
        && forall k :: 0 <= k < j && Reached(blocks, k, nprint, showEmpty, specs, parse) ==>
             ApplyFilter(specs, parse, blocks[k]).Success?
    ensures WellFormed(specs, parse) ==> failure.None?
  {
    shown, failure := [], None;
    var limit := Limit(nprint);
    var idx := 0;
    assert blocks[..|blocks|] == blocks;
    for i := 0 to |blocks|
      invariant idx == |shown|
      invariant forall k :: 0 <= k < |shown| ==> shown[k].index == k + 1
      invariant Blocks(shown) == Keep(blocks[..i], showEmpty, specs, parse)
      invariant limit.Some? ==> idx <= limit.value
      invariant forall k :: 0 <= k < i && Reached(blocks, k, nprint, showEmpty, specs, parse) ==>
        ApplyFilter(specs, parse, blocks[k]).Success?
    {
      assert blocks[..i + 1][..i] == blocks[..i];
      if limit.Some? && idx >= limit.value {
        KeepPrefix(blocks, i, showEmpty, specs, parse);
        forall j | i <= j < |blocks|
          ensures !Reached(blocks, j, nprint, showEmpty, specs, parse)
        {
          KeepGrows(blocks, i, j, showEmpty, specs, parse);
        }
        break;
      }
      var block := blocks[i];
      if !showEmpty && NumAvailable(block) == 0 {
        continue;
      }
      var verdict := ApplyFilter(specs, parse, block);
      if verdict.Failure? {
        if WellFormed(specs, parse) {
          ApplyFilterIsConjunction(specs, parse, block);
        }
        failure := Some(verdict.error);
        assert Reached(blocks, i, nprint, showEmpty, specs, parse);
        return;
      }
      if !verdict.value {
        continue;
      }
      idx := idx + 1;
      shown := shown + [Numbered(idx, block)];
    }
  }

  /** With nobody available anywhere and empty blocks hidden, nothing is printed. */
  lemma {:induction false} NothingWhenNobodyFree(bs: seq<Block>, specs: seq<string>, parse: string -> Option<real>)
    requires forall k :: 0 <= k < |bs| ==> NumAvailable(bs[k]) == 0
    ensures Keep(bs, false, specs, parse) == []
  {
    if bs != [] {
      NothingWhenNobodyFree(bs[..|bs| - 1], specs, parse);
    }
  }
}
