/** Parsing the comma-separated column entries of the form (assign2.py:101-102). */
module ColumnList {
  import opened Strings

  /** The pieces, stripped, in order, with the blank ones dropped. */
  function StripNonBlank(pieces: seq<string>): (names: seq<string>)
    ensures |names| <= |pieces|
    ensures forall n :: n in names ==> n != "" && IsStripped(n)
    ensures (forall p :: p in pieces ==> ',' !in p) ==> forall n :: n in names ==> ',' !in n
  {
    if pieces == [] then []
    else
      var name := Strip(pieces[0]);
      var rest := StripNonBlank(pieces[1..]);
      assert forall p :: p in pieces[1..] ==> p in pieces;
      StripChars(pieces[0]);
      if name == "" then rest else [name] + rest
  }

  /** `[col.strip() for col in entry.split(",") if col.strip()]` */
  function ParseColumnList(entry: string): (names: seq<string>)
    ensures forall n :: n in names ==> n != "" && ',' !in n && IsStripped(n)
  {
    StripNonBlank(Split(entry, ','))
  }

  /** The comprehension works piece by piece: the names of two runs of pieces are the
      names of the first followed by those of the second. */
  lemma {:induction false} StripNonBlankAppend(a: seq<string>, b: seq<string>)
    ensures StripNonBlank(a + b) == StripNonBlank(a) + StripNonBlank(b)
  {
    if a == [] {
      assert a + b == b;
    } else {
      assert (a + b)[0] == a[0];
      assert (a + b)[1..] == a[1..] + b;
      StripNonBlankAppend(a[1..], b);
      var first := if Strip(a[0]) == "" then [] else [Strip(a[0])];
      assert first + (StripNonBlank(a[1..]) + StripNonBlank(b)) == (first + StripNonBlank(a[1..])) + StripNonBlank(b);
    }
  }

  /** A single piece without commas gives its stripped self, or nothing when it is blank. */
  lemma ParseOnePiece(piece: string)
    requires ',' !in piece
    ensures ParseColumnList(piece) == if Strip(piece) == "" then [] else [Strip(piece)]
  {
    SplitWithoutSep(piece, ',');
    assert [piece][1..] == [];
  }

  /** An entry cut at a comma lists the names of the part before it, then those of the
      part after it. With `ParseOnePiece` this determines the parse of every entry:
      blank pieces vanish, and the others come back stripped and in order. */
  lemma ParseConcat(before: string, after: string)
    ensures ParseColumnList(before + [','] + after) == ParseColumnList(before) + ParseColumnList(after)
  {
    SplitConcat(before, after, ',');
    StripNonBlankAppend(Split(before, ','), Split(after, ','));
  }

  /** A trailing comma after a name adds no column. */
  lemma TrailingComma(name: string)
    requires name != "" && ',' !in name && IsStripped(name)
    ensures ParseColumnList(name + [',']) == [name]
  {
    StripKeepsStripped(name);
    ParseOnePiece(name);
    ParseOnePiece("");
    ParseConcat(name, "");
    assert name + [','] + "" == name + [','];
  }

  /** A blank piece between two names adds no column. */
  lemma BlankPieceBetweenNames(first: string, blank: string, second: string)
    requires first != "" && ',' !in first && IsStripped(first)
    requires second != "" && ',' !in second && IsStripped(second)
    requires ',' !in blank && forall i :: 0 <= i < |blank| ==> IsSpace(blank[i])
    ensures ParseColumnList(first + [','] + blank + [','] + second) == [first, second]
  {
    var tail := blank + [','] + second;
    assert first + [','] + blank + [','] + second == first + [','] + tail;
    BlankThenName(blank, second);
    ParseConcat(first, tail);
    ParseOnePiece(first);
    StripKeepsStripped(first);
  }

  lemma BlankThenName(blank: string, name: string)
    requires name != "" && ',' !in name && IsStripped(name)
    requires ',' !in blank && forall i :: 0 <= i < |blank| ==> IsSpace(blank[i])
    ensures ParseColumnList(blank + [','] + name) == [name]
  {
    ParseConcat(blank, name);
    ParseOnePiece(blank);
    ParseOnePiece(name);
    StripKeepsStripped(name);
  }

  /** An entry of comma-separated names, each padded with any whitespace, parses
      to the stripped names in their original order. */
  lemma {:induction false} ParseJoined(pieces: seq<string>)
    requires |pieces| >= 1
    requires forall p :: p in pieces ==> ',' !in p && Strip(p) != ""
    ensures |ParseColumnList(Join(pieces, ','))| == |pieces|
    ensures forall i :: 0 <= i < |pieces| ==> ParseColumnList(Join(pieces, ','))[i] == Strip(pieces[i])
  {
    SplitJoin(pieces, ',');
    assert forall i :: 0 <= i < |pieces| ==> pieces[i] in pieces;
    StrippedInOrder(pieces);
  }

  lemma {:induction false} StrippedInOrder(pieces: seq<string>)
    requires forall i :: 0 <= i < |pieces| ==> Strip(pieces[i]) != ""
    ensures |StripNonBlank(pieces)| == |pieces|
    ensures forall i :: 0 <= i < |pieces| ==> StripNonBlank(pieces)[i] == Strip(pieces[i])
  {
    if pieces != [] {
      var tail := pieces[1..];
      assert forall i :: 0 <= i < |tail| ==> tail[i] == pieces[i + 1];
      StrippedInOrder(tail);
      var first := Strip(pieces[0]);
      assert first != "";
      var r, rest := StripNonBlank(pieces), StripNonBlank(tail);
      assert r == [first] + rest;
      forall i | 0 <= i < |pieces| ensures r[i] == Strip(pieces[i]) {
        if i > 0 {
          assert r[i] == rest[i - 1];
        }
      }
    }
  }

  /** Clean names written with commas between them come back unchanged. */
  lemma ParseJoinedNames(names: seq<string>)
    requires |names| >= 1
    requires forall n :: n in names ==> n != "" && ',' !in n && IsStripped(n)
    ensures ParseColumnList(Join(names, ',')) == names
  {
    forall n | n in names ensures Strip(n) == n {
      StripKeepsStripped(n);
    }
    ParseJoined(names);
    var r := ParseColumnList(Join(names, ','));
    assert forall i :: 0 <= i < |names| ==> r[i] == names[i];
  }

  /** An entry made only of commas and whitespace names no column. */
  lemma BlankEntry(entry: string)
    requires forall i :: 0 <= i < |entry| ==> entry[i] == ',' || IsSpace(entry[i])
    ensures ParseColumnList(entry) == []
  {
    BlankPieces(entry);
    NoNamesFromBlankPieces(Split(entry, ','));
  }

  predicate AllSpace(s: string)
  {
    forall i :: 0 <= i < |s| ==> IsSpace(s[i])
  }

  lemma {:induction false} BlankPieces(entry: string)
    requires forall i :: 0 <= i < |entry| ==> entry[i] == ',' || IsSpace(entry[i])
    ensures forall p :: p in Split(entry, ',') ==> AllSpace(p)
  {
    if entry != [] {
      BlankPieces(entry[1..]);
      var rest := Split(entry[1..], ',');
      assert rest[0] in rest;
      if entry[0] != ',' {
        var first := [entry[0]] + rest[0];
        assert AllSpace(first) by {
          forall i | 0 <= i < |first| ensures IsSpace(first[i]) {
            if i > 0 { assert first[i] == rest[0][i - 1]; }
          }
        }
        assert forall p :: p in rest[1..] ==> p in rest;
      }
    }
  }

  lemma {:induction false} NoNamesFromBlankPieces(pieces: seq<string>)
    requires forall p :: p in pieces ==> AllSpace(p)
    ensures StripNonBlank(pieces) == []
  {
    if pieces != [] {
      assert pieces[0] in pieces;
      assert forall p :: p in pieces[1..] ==> p in pieces;
      NoNamesFromBlankPieces(pieces[1..]);
    }
  }
}
