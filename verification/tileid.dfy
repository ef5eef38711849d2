/** The server's tile keys: `generate_tile_id(x, y)` prints the two
    indices with an underscore between them; the per-tile prompt store and
    the temporary upload files are named by it. */
module TileIds {
  import opened Optional
  import opened Text

  const Separator := '_'

  /** generate_tile_id: f"{x}_{y}". */
  function TileId(x: int, y: int): string
  {
    IntToStr(x) + [Separator] + IntToStr(y)
  }

  /** Reading a key back: cut at the first underscore and parse both
      sides. */
  function ParseTileId(s: string): Option<(int, int)>
  {
    match Find(s, [Separator])
    case None => None
    case Some(i) =>
      match (ParseInt(s[..i]), ParseInt(s[i + 1..]))
      case (Some(x), Some(y)) => Some((x, y))
      case _ => None
  }

  /** A printed integer holds no underscore, so a key has exactly one, right
      after the printed x. */
  lemma {:induction false} SeparatorIsUnique(x: int, y: int)
    ensures Find(TileId(x, y), [Separator]) == Some(|IntToStr(x)|)
    ensures forall k :: 0 <= k < |TileId(x, y)| && TileId(x, y)[k] == Separator ==> k == |IntToStr(x)|
  {
    var s := TileId(x, y);
    var n := |IntToStr(x)|;
    assert OccursAt(s, [Separator], n) by {
      assert s[n..n + 1] == [s[n]];
    }
    forall k | 0 <= k < |s| && k != n
      ensures s[k] != Separator
    {
      if k < n {
        assert s[k] == IntToStr(x)[k];
      } else {
        assert s[k] == IntToStr(y)[k - n - 1];
      }
    }
    forall k | 0 <= k < n
      ensures !OccursAt(s, [Separator], k)
    {
      assert s[k..k + 1] == [s[k]];
    }
    FindReportsFirst(s, [Separator], n);
  }

  /** Parsing a key gives back its indices. */
  lemma TileIdRoundTrip(x: int, y: int)
    ensures ParseTileId(TileId(x, y)) == Some((x, y))
  {
    var s := TileId(x, y);
    var n := |IntToStr(x)|;
    SeparatorIsUnique(x, y);
    assert s[..n] == IntToStr(x);
    assert s[n + 1..] == IntToStr(y);
    IntToStrRoundTrip(x);
    IntToStrRoundTrip(y);
  }

  /** Distinct tiles get distinct keys. */
  lemma TileIdInjective(x1: int, y1: int, x2: int, y2: int)
    requires TileId(x1, y1) == TileId(x2, y2)
    ensures x1 == x2 && y1 == y2
  {
    TileIdRoundTrip(x1, y1);
    TileIdRoundTrip(x2, y2);
  }

  /** The upload's file name: "temp" + str(x) + "_" + str(y) + ".png". */
  function TempFileName(x: int, y: int): (r: string)
    ensures r == "temp" + TileId(x, y) + ".png"
  {
    "temp" + IntToStr(x) + "_" + IntToStr(y) + ".png"
  }

  /** Uploads for distinct targets go to distinct files. */
  lemma TempFileNameInjective(x1: int, y1: int, x2: int, y2: int)
    requires TempFileName(x1, y1) == TempFileName(x2, y2)
    ensures x1 == x2 && y1 == y2
  {
    var a := TileId(x1, y1);
    var b := TileId(x2, y2);
    assert |a| == |b|;
    assert a == TempFileName(x1, y1)[4..4 + |a|];
    assert b == TempFileName(x2, y2)[4..4 + |b|];
    TileIdInjective(x1, y1, x2, y2);
  }
}
