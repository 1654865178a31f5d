/**
 * Loading the greeting lines ("wishes") from `wishes.txt`, as the desktop
 * application (`BirthdayWisherApp._load_wishes`) and the web server
 * (`load_wishes`) each do it: keep the stripped, non-blank lines in file
 * order, and fall back to a built-in list when nothing usable is found.
 */
module Wishes {
  import opened Wrappers
  import opened PyText

  /**
   * What opening and iterating over `wishes.txt` gives: the lines the file
   * iterator yields (terminators included or not, `strip` removes them), or
   * the reason there are none.
   */
  datatype WishFile =
    | Missing                    // the file does not exist
    | Unreadable                 // any other OS error while opening or reading
    | Undecodable                // the bytes are not valid UTF-8
    | Lines(lines: seq<string>)

  /** The one failure that escapes the desktop loader: a decoding error. */
  datatype LoadError = DecodeError

  /** A usable wish list: every entry is non-empty and has no surrounding whitespace. */
  predicate AllStripped(ws: seq<string>)
  {
    forall k :: 0 <= k < |ws| ==> ws[k] != [] && Strip(ws[k]) == ws[k]
  }

  /** Some line holds more than whitespace. */
  predicate HasNonBlank(lines: seq<string>)
  {
    exists i :: 0 <= i < |lines| && !IsBlank(lines[i])
  }

  lemma HasNonBlankSplit(lines: seq<string>)
    requires lines != []
    ensures HasNonBlank(lines) <==>
      HasNonBlank(lines[..|lines| - 1]) || !IsBlank(lines[|lines| - 1])
  {
    var init := lines[..|lines| - 1];
    if HasNonBlank(init) {
      var i :| 0 <= i < |init| && !IsBlank(init[i]);
      assert lines[i] == init[i];
    }
    if HasNonBlank(lines) {
      var i :| 0 <= i < |lines| && !IsBlank(lines[i]);
      if i < |init| { assert init[i] == lines[i]; }
    }
  }

  /** `[line.strip() for line in lines if line.strip()]`, built as the comprehension appends. */
  function KeptLines(lines: seq<string>): (r: seq<string>)
    ensures |r| <= |lines|
    ensures AllStripped(r)
    ensures r == [] <==> !HasNonBlank(lines)
  {
    if lines == [] then
      []
    else
      var init := lines[..|lines| - 1];
      var last := Strip(lines[|lines| - 1]);
      HasNonBlankSplit(lines);
      StripBlank(lines[|lines| - 1]);
      StripIdempotent(lines[|lines| - 1]);
      KeptLines(init) + (if last != [] then [last] else [])
  }

  /** The positions of the lines `KeptLines` keeps, in the same order. */
  ghost function KeptIndices(lines: seq<string>): seq<nat>
  {
    if lines == [] then
      []
    else
      var n := |lines| - 1;
      KeptIndices(lines[..n]) + (if Strip(lines[n]) != [] then [n] else [])
  }

  /** Entry k of `KeptLines` is the stripped line at position `KeptIndices(lines)[k]`. */
  lemma {:induction false} KeptIndicesPoint(lines: seq<string>)
    ensures |KeptIndices(lines)| == |KeptLines(lines)|
    ensures forall k :: 0 <= k < |KeptIndices(lines)| ==>
      KeptIndices(lines)[k] < |lines| && KeptLines(lines)[k] == Strip(lines[KeptIndices(lines)[k]])
  {
    if lines != [] {
      var n := |lines| - 1;
      var init := lines[..n];
      KeptIndicesPoint(init);
      var r0, ix0 := KeptLines(init), KeptIndices(init);
      var r, ix := KeptLines(lines), KeptIndices(lines);
      var last := Strip(lines[n]);
      assert r == r0 + (if last != [] then [last] else []);
      assert ix == ix0 + (if last != [] then [n] else []);
      forall k | 0 <= k < |ix|
        ensures ix[k] < |lines| && r[k] == Strip(lines[ix[k]])
      {
        if k < |ix0| {
          assert ix[k] == ix0[k] && r[k] == r0[k];
          assert lines[ix0[k]] == init[ix0[k]];
        }
      }
    }
  }

  /** The positions `KeptIndices` lists are below `|lines|` and strictly increasing. */
  lemma {:induction false} KeptIndicesIncreasing(lines: seq<string>)
    ensures forall k :: 0 <= k < |KeptIndices(lines)| ==> KeptIndices(lines)[k] < |lines|
    ensures forall k1, k2 :: 0 <= k1 < k2 < |KeptIndices(lines)| ==>
      KeptIndices(lines)[k1] < KeptIndices(lines)[k2]
  {
    if lines != [] {
      var n := |lines| - 1;
      KeptIndicesIncreasing(lines[..n]);
      var ix0, ix := KeptIndices(lines[..n]), KeptIndices(lines);
      assert ix == ix0 + (if Strip(lines[n]) != [] then [n] else []);
      forall k | 0 <= k < |ix| ensures ix[k] < |lines| {
        if k < |ix0| { assert ix[k] == ix0[k]; }
      }
      forall k1, k2 | 0 <= k1 < k2 < |ix| ensures ix[k1] < ix[k2] {
        assert ix[k1] == ix0[k1];
        if k2 < |ix0| { assert ix[k2] == ix0[k2]; }
      }
    }
  }

  /** A position is listed by `KeptIndices` exactly when its line is not blank. */
  lemma {:induction false} KeptIndicesComplete(lines: seq<string>)
    ensures forall i :: 0 <= i < |lines| ==> (Strip(lines[i]) != [] <==> i in KeptIndices(lines))
  {
    if lines != [] {
      var n := |lines| - 1;
      var init := lines[..n];
      KeptIndicesComplete(init);
      KeptIndicesIncreasing(init);
      var ix0, ix := KeptIndices(init), KeptIndices(lines);
      assert ix == ix0 + (if Strip(lines[n]) != [] then [n] else []);
      forall i | 0 <= i < |lines| ensures Strip(lines[i]) != [] <==> i in ix {
        if i < n {
          assert lines[i] == init[i];
        } else {
          assert n !in ix0;
        }
      }
    }
  }

  /**
   * The kept lines are exactly the stripped non-blank lines, in file order:
   * entry k is the stripped line at position KeptIndices(lines)[k], those
   * positions increase, and a position is among them exactly when its line
   * is not blank.
   */
  lemma KeptLinesInFileOrder(lines: seq<string>)
    ensures var r, ix := KeptLines(lines), KeptIndices(lines);
      && |ix| == |r|
      && (forall k :: 0 <= k < |ix| ==> ix[k] < |lines| && r[k] == Strip(lines[ix[k]]))
      && (forall k1, k2 :: 0 <= k1 < k2 < |ix| ==> ix[k1] < ix[k2])
      && (forall i :: 0 <= i < |lines| ==> (Strip(lines[i]) != [] <==> i in ix))
  {
    KeptIndicesPoint(lines);
    KeptIndicesIncreasing(lines);
    KeptIndicesComplete(lines);
  }

  /** The built-in wishes of the desktop application. */
  const DesktopDefaults: seq<string> := [
    "生日快乐！愿所有美好都如期而至！",
    "祝你今天像公主一样闪耀！",
    "新的一岁，暴富暴美！",
    "愿你的每一天都充满阳光和欢笑！"
  ]

  /** The built-in wishes of the web server. */
  const WebDefaults: seq<string> := [
    "生日快乐！愿所有美好都如期而至！",
    "祝你今天像公主一样闪耀！",
    "新的一岁，暴富暴美！",
    "愿你的每一天都充满阳光和欢笑！",
    "生日快乐，健康、开心、幸运！",
    "愿你永远年轻，永远热泪盈眶！",
    "在这个特别的日子里，祝你生日快乐，心想事成！"
  ]

  lemma DefaultsStripped()
    ensures AllStripped(DesktopDefaults) && AllStripped(WebDefaults)
  {
    forall k | 0 <= k < |WebDefaults| ensures Strip(WebDefaults[k]) == WebDefaults[k] {
      var w := WebDefaults[k];
      assert !IsSpace(w[0]) && !IsSpace(w[|w| - 1]);
      assert StripLeading(w) == w;
    }
    assert DesktopDefaults == WebDefaults[..4];
  }

  /**
   * `BirthdayWisherApp._load_wishes`. A missing file (which it then tries to
   * create) and any OS error give the defaults; a decoding error is not
   * caught and escapes.
   */
  function LoadDesktopWishes(file: WishFile): (r: Result<seq<string>, LoadError>)
    ensures r.Err? <==> file.Undecodable?
    ensures r.Ok? ==> r.value != [] && AllStripped(r.value)
    ensures file.Lines? && HasNonBlank(file.lines) ==> r == Ok(KeptLines(file.lines))
    ensures file.Missing? || file.Unreadable? || (file.Lines? && !HasNonBlank(file.lines)) ==>
      r == Ok(DesktopDefaults)
  {
    DefaultsStripped();
    match file
    case Lines(lines) =>
      var wishes := KeptLines(lines);
      if wishes != [] then Ok(wishes) else Ok(DesktopDefaults)
    case Undecodable => Err(DecodeError)
    case _ => Ok(DesktopDefaults)
  }

  /**
   * `load_wishes` of the web server. Every failure, decoding included, gives
   * the defaults, so the list is never empty.
   */
  function LoadWebWishes(file: WishFile): (r: seq<string>)
    ensures r != [] && AllStripped(r)
    ensures file.Lines? && HasNonBlank(file.lines) ==> r == KeptLines(file.lines)
    ensures !(file.Lines? && HasNonBlank(file.lines)) ==> r == WebDefaults
  {
    DefaultsStripped();
    if file.Lines? then
      var wishes := KeptLines(file.lines);
      if wishes != [] then wishes else WebDefaults
    else
      WebDefaults
  }
}
