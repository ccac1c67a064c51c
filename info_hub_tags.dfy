/**
 * The tag column of InfoHub items: a list of tags is stored as their names
 * joined with ", " and read back by splitting at ',', stripping each piece
 * and dropping the empty ones.
 */
module InfoHubTags {
  import opened Wrappers
  import opened Text
  import Seqs

  datatype Tag = Tag(name: string)

  function Names(tags: seq<Tag>): (ns: seq<string>)
    ensures |ns| == |tags| && forall k :: 0 <= k < |tags| ==> ns[k] == tags[k].name
  {
    if |tags| == 0 then [] else [tags[0].name] + Names(tags[1..])
  }

  /**
   * `", ".join(tag.name for tag in item.tags)`: no tags give the empty
   * text; otherwise the pieces between the commas are the first name, then
   * each later name behind one blank.
   */
  function SerializeTags(tags: seq<Tag>): (stored: string)
    ensures |tags| == 0 ==> stored == ""
    ensures |tags| > 0 ==> stored == Seqs.Join([tags[0].name] + Blanked(Names(tags[1..])), [','])
  {
    if |tags| == 0 then ""
    else
      NamesTail(tags);
      JoinedPieces(Names(tags));
      Seqs.Join(Names(tags), ", ")
  }

  /** A name that survives the round trip: non-empty, stripped, comma-free. */
  predicate IsCleanName(n: string) {
    |n| > 0 && IsStripped(n) && ',' !in n
  }

  predicate AllClean(tags: seq<Tag>) {
    forall k :: 0 <= k < |tags| ==> IsCleanName(tags[k].name)
  }

  predicate CommaFree(pieces: seq<string>) {
    forall k :: 0 <= k < |pieces| ==> ',' !in pieces[k]
  }

  predicate AllBlank(pieces: seq<string>) {
    forall k :: 0 <= k < |pieces| ==> AllSpace(pieces[k])
  }

  /**
   * `[Tag(name=p.strip()) for p in pieces if p.strip()]`: comma-free pieces
   * give clean names, and nothing is kept exactly when every piece is blank.
   */
  function CleanPieces(pieces: seq<string>): (tags: seq<Tag>)
    ensures CommaFree(pieces) ==> AllClean(tags)
    ensures tags == [] <==> AllBlank(pieces)
  {
    if |pieces| == 0 then []
    else
      var t := Strip(pieces[0]);
      var rest := CleanPieces(pieces[1..]);
      assert CommaFree(pieces) ==> CommaFree(pieces[1..]) && ',' !in t by {
        if CommaFree(pieces) {
          assert forall k :: 1 <= k < |pieces| ==> pieces[k] == pieces[1..][k - 1];

        }
      }
      assert AllBlank(pieces) <==> AllSpace(pieces[0]) && AllBlank(pieces[1..]) by {
        assert forall k :: 1 <= k < |pieces| ==> pieces[k] == pieces[1..][k - 1];
      }
      if t == [] then rest else [Tag(t)] + rest
  }

  /**
   * The parsing expression of `get_info_items`/`get_info_item`: a NULL or
   * empty column gives no tags; otherwise the cleaned pieces. Every tag read
   * back has a non-empty, stripped, comma-free name.
   */
  function ParseTags(stored: Option<string>): (tags: seq<Tag>)
    ensures stored.None? || stored == Some("") ==> tags == []
    ensures AllClean(tags)
  {
    match stored
    case None => []
    case Some(s) => if s == "" then [] else CleanPieces(Seqs.Split(s, ','))
  }

  /** Each name behind a blank: the pieces ", " leaves after the first. */
  function Blanked(ns: seq<string>): (r: seq<string>)
    ensures |r| == |ns| && forall k :: 0 <= k < |ns| ==> r[k] == " " + ns[k]
  {
    if |ns| == 0 then [] else [" " + ns[0]] + Blanked(ns[1..])
  }

  lemma {:induction false} JoinBlanked(ns: seq<string>)
    requires |ns| >= 1
    ensures Seqs.Join(Blanked(ns), ",") == " " + Seqs.Join(ns, ", ")
    decreases |ns|
  {
    if |ns| > 1 {
      JoinBlanked(ns[1..]);
      assert Blanked(ns)[1..] == Blanked(ns[1..]);
      calc {
        Seqs.Join(Blanked(ns), ",");
        (" " + ns[0]) + "," + Seqs.Join(Blanked(ns[1..]), ",");
        (" " + ns[0]) + "," + (" " + Seqs.Join(ns[1..], ", "));
        " " + (ns[0] + ", " + Seqs.Join(ns[1..], ", "));
      }
    }
  }

  lemma CleanCons(p: string, ps: seq<string>)
    requires Strip(p) != []
    ensures CleanPieces([p] + ps) == [Tag(Strip(p))] + CleanPieces(ps)
  {
    assert ([p] + ps)[0] == p && ([p] + ps)[1..] == ps;
  }

  lemma {:induction false} CleanBlanked(tags: seq<Tag>)
    requires AllClean(tags)
    ensures CleanPieces(Blanked(Names(tags))) == tags
    decreases |tags|
  {
    if |tags| > 0 {
      var n := tags[0].name;
      var ps := Blanked(Names(tags[1..]));
      assert Blanked(Names(tags)) == [" " + n] + ps by {
        assert Names(tags) == [n] + Names(tags[1..]);
      }
      assert Strip(" " + n) == n by { StripLeadingBlank(n); }
      CleanCons(" " + n, ps);
      assert AllClean(tags[1..]) by {
        assert forall k :: 1 <= k < |tags| ==> tags[k] == tags[1..][k - 1];
      }
      CleanBlanked(tags[1..]);
      assert tags == [tags[0]] + tags[1..];
    }
  }

  /** The pieces of a serialised list clean up to the list. */
  lemma CleanSerializedPieces(tags: seq<Tag>)
    requires AllClean(tags) && |tags| > 0
    ensures CleanPieces([tags[0].name] + Blanked(Names(tags[1..]))) == tags
  {
    var rest := Blanked(Names(tags[1..]));
    CleanCons(tags[0].name, rest);
    assert AllClean(tags[1..]) by {
      assert forall k :: 1 <= k < |tags| ==> tags[k] == tags[1..][k - 1];
    }
    CleanBlanked(tags[1..]);
    assert tags == [tags[0]] + tags[1..];
  }

  /** ", " joins names as "," joins the first name and the blanked others. */
  lemma {:induction false} JoinedPieces(ns: seq<string>)
    requires |ns| > 0
    ensures Seqs.Join(ns, ", ") == Seqs.Join([ns[0]] + Blanked(ns[1..]), [','])
  {
    var pieces := [ns[0]] + Blanked(ns[1..]);
    if |ns| == 1 {
      assert pieces == [ns[0]];
    } else {
      JoinBlanked(ns[1..]);
      assert pieces[1..] == Blanked(ns[1..]);
      assert Seqs.Join(pieces, [',']) == ns[0] + "," + Seqs.Join(Blanked(ns[1..]), ",");
      assert Seqs.Join(ns, ", ") == ns[0] + ", " + Seqs.Join(ns[1..], ", ");
    }
  }

  lemma NamesTail(tags: seq<Tag>)
    requires |tags| > 0
    ensures Names(tags)[0] == tags[0].name && Names(tags)[1..] == Names(tags[1..])
  {
  }

  /**
   * Reading back a stored list gives the list itself when every name is
   * non-empty, stripped and comma-free (the empty list included).
   */
  lemma ParseSerialize(tags: seq<Tag>)
    requires AllClean(tags)
    ensures ParseTags(Some(SerializeTags(tags))) == tags
  {
    if |tags| > 0 {
      var n := tags[0].name;
      var rest := Blanked(Names(tags[1..]));
      var pieces := [n] + rest;
      var stored := SerializeTags(tags);
      assert ParseTags(Some(stored)) == CleanPieces(pieces) by {
        assert forall k :: 0 <= k < |pieces| ==> ',' !in pieces[k];
        Seqs.SplitJoin(pieces, ',');
        assert |Seqs.Join(pieces, [','])| >= |n| > 0;
      }
      CleanSerializedPieces(tags);
    }
  }

  /**
   * The column reads back as no tags exactly when it is NULL or holds only
   * commas and whitespace.
   */
  lemma ParseEmptyIff(s: string)
    ensures ParseTags(Some(s)) == [] <==> SepsAndBlanks(s, ',')
  {
    if s != "" {
      JoinedChars(Seqs.Split(s, ','), ',');
    }
  }

  /** Every character is a separator or whitespace. */
  predicate SepsAndBlanks(s: string, sep: char) {
    forall k :: 0 <= k < |s| ==> s[k] == sep || IsSpace(s[k])
  }

  /** A join of separator-free pieces is all separators and blanks exactly when every piece is blank. */
  lemma {:induction false} JoinedChars(pieces: seq<string>, sep: char)
    requires |pieces| >= 1
    requires forall k :: 0 <= k < |pieces| ==> sep !in pieces[k]
    ensures AllBlank(pieces) <==> SepsAndBlanks(Seqs.Join(pieces, [sep]), sep)
    decreases |pieces|
  {
    var p := pieces[0];
    assert AllSpace(p) <==> SepsAndBlanks(p, sep) by {
      assert forall k :: 0 <= k < |p| ==> p[k] != sep;
    }
    if |pieces| > 1 {
      JoinedChars(pieces[1..], sep);
      var s := Seqs.Join(pieces, [sep]);
      var rest := Seqs.Join(pieces[1..], [sep]);
      assert s == p + [sep] + rest;
      assert AllBlank(pieces) <==> AllSpace(p) && AllBlank(pieces[1..]) by {
        assert forall k :: 1 <= k < |pieces| ==> pieces[k] == pieces[1..][k - 1];
      }
      assert SepsAndBlanks(s, sep) <==> SepsAndBlanks(p, sep) && SepsAndBlanks(rest, sep) by {
        assert forall k :: 0 <= k < |rest| ==> rest[k] == s[|p| + 1 + k];
        assert forall k :: 0 <= k < |p| ==> p[k] == s[k];
      }
    }
  }
}
