/**
 * The worked examples of test.py (lines 5-81), each proved for the model
 * of process_info, and two more that show edge cases: the placeholder kept
 * in the fields that do not suppress it, and a name part that does not
 * match while the origin part still does.
 *
 * Every example goes through Example (or MismatchExample): the record text
 * is cut into the groups the patterns capture, and the facts each group
 * needs (no separator inside it, no surrounding whitespace) are proved
 * about it alone. Facts about string literals grow costly quickly as they
 * pile up in one proof, hence the many small lemmas per example.
 */
module WorkedExamples {
  import opened Wrappers
  import opened Text
  import opened Patterns
  import opened ProcessToCsv

  /** Stripping a stripped text changes nothing. */
  lemma {:induction false} StripStripped(m: string)
    requires IsStripped(m)
    ensures Strip(m) == m
  {
    assert "" + m + "" == m;
    StripSurrounded("", m, "");
  }

  /** A name part of the name shape whose groups need no stripping sets
      the name fields to those groups (the trail name unless it is the
      placeholder). */
  lemma {:induction false} NameExample(name: string, g: NameGroups)
    requires NameShape(name, g)
    requires IsStripped(g.lastName) && IsStripped(g.firstName)
    requires g.trailName.Some? ==> IsStripped(g.trailName.value)
    ensures WithName(NoInfo, MatchName(name))
         == NoInfo.(lastName := Some(g.lastName), firstName := Some(g.firstName),
                    trailName := DropPlaceholder(g.trailName))
  {
    NameShapeMatches(name, g);
    StripStripped(g.lastName);
    StripStripped(g.firstName);
    if g.trailName.Some? {
      StripStripped(g.trailName.value);
    }
  }

  /** An origin part laid out as origin_pattern reads it, whose state is a
      stripped text after some whitespace and whose country needs no
      stripping, sets the origin fields to those values. */
  lemma {:induction false} OriginExample(r: ProcessedInfo, origin: string, g: OriginGroups,
                                         gap1: string, sep: string, gap2: string, word: string,
                                         rest: string, lead: string, state: string)
    requires OriginLayout(origin, g, gap1, sep, gap2, word, rest)
    requires g.state == lead + state && AllIn(lead, Space) && state != [] && IsStripped(state)
    requires g.country != [] && IsStripped(g.country)
    ensures WithOrigin(r, MatchOrigin(origin))
         == r.(state := DropPlaceholder(Some(state)), country := Some(g.country), hikeType := g.hikeType)
  {
    OriginLayoutMatches(origin, g, gap1, sep, gap2, word, rest);
    assert lead + state + "" == g.state;
    StripSurrounded(lead, state, "");
    StripStripped(g.country);
    CleanWord(g.hikeType);
  }

  /** The text of a name part of the name shape with groups `g`. */
  function NameText(g: NameGroups): string {
    match g.trailName
    case None => g.lastName + ", " + g.firstName
    case Some(t) => g.lastName + ", " + g.firstName + " '" + t + "'"
  }

  /** The text of an origin part laid out as OriginLayout says. */
  function OriginText(g: OriginGroups, gap1: string, sep: string, gap2: string,
                      word: string, rest: string): string
  {
    g.state + [','] + (gap1 + (g.country + (sep + (gap2 + (word + rest)))))
  }

  /** A character in none of the groups, and not one of the separators
      name_pattern adds, is not in the name part. */
  lemma {:induction false} NameTextWithin(g: NameGroups, x: char)
    requires x != ',' && x != ' ' && x != '\''
    requires x !in g.lastName && x !in g.firstName
    requires g.trailName.Some? ==> x !in g.trailName.value
    ensures x !in NameText(g)
  {
  }

  /** A character in none of the pieces, and not the comma after the state,
      is not in the origin part. */
  lemma {:induction false} OriginTextWithin(g: OriginGroups, gap1: string, sep: string, gap2: string,
                                            word: string, rest: string, x: char)
    requires x != ','
    requires x !in g.state && x !in gap1 && x !in g.country && x !in sep
    requires x !in gap2 && x !in word && x !in rest
    ensures x !in OriginText(g, gap1, sep, gap2, word, rest)
  {
  }

  /** `name` is the name part with groups `g`, those groups need no
      stripping, and none holds a semicolon. */
  predicate NameReady(name: string, g: NameGroups) {
    name == NameText(g) && NameGroupsValid(g)
    && ';' !in g.lastName && IsStripped(g.lastName) && IsStripped(g.firstName)
    && (g.trailName.Some? ==> ';' !in g.trailName.value && IsStripped(g.trailName.value))
  }

  /** `origin` is laid out as origin_pattern reads it from pieces without a
      semicolon, its state is a stripped text after the whitespace `lead`,
      and its country needs no stripping. */
  predicate OriginReady(origin: string, og: OriginGroups, gap1: string, sep: string, gap2: string,
                        word: string, rest: string, lead: string, state: string)
  {
    origin == OriginText(og, gap1, sep, gap2, word, rest)
    && OriginPieces(og, gap1, sep, gap2, word, rest)
    && ';' !in og.state && ';' !in og.country && ';' !in gap1 && ';' !in sep
    && ';' !in gap2 && ';' !in word && ';' !in rest
    && og.state == lead + state && AllIn(lead, Space) && state != [] && IsStripped(state)
    && og.country != [] && IsStripped(og.country)
  }

  /** A whole record text made of such a name part and such an origin part
      gives exactly their groups as fields (the placeholder suppressed in
      the trail name and the state). */
  lemma {:induction false} Example(name: string, origin: string, g: NameGroups, og: OriginGroups,
                                   gap1: string, sep: string, gap2: string, word: string,
                                   rest: string, lead: string, state: string)
    requires NameReady(name, g)
    requires OriginReady(origin, og, gap1, sep, gap2, word, rest, lead, state)
    ensures ProcessInfo(name + ";" + origin)
         == ProcessedInfo(Some(g.lastName), Some(g.firstName), DropPlaceholder(g.trailName),
                          DropPlaceholder(Some(state)), Some(og.country), og.hikeType)
  {
    NameTextWithin(g, ';');
    OriginTextWithin(og, gap1, sep, gap2, word, rest, ';');
    ProcessInfoParts(name, origin);
    NameExample(name, g);
    OriginExample(WithName(NoInfo, MatchName(name)), origin, og, gap1, sep, gap2, word, rest, lead, state);
  }

  /** A name part without a comma does not match name_pattern, so the
      name fields stay None while the origin part is still read. */
  lemma {:induction false} MismatchExample(name: string, origin: string, og: OriginGroups,
                                           gap1: string, sep: string, gap2: string, word: string,
                                           rest: string, lead: string, state: string)
    requires ',' !in name && ';' !in name
    requires OriginReady(origin, og, gap1, sep, gap2, word, rest, lead, state)
    ensures ProcessInfo(name + ";" + origin)
         == ProcessedInfo(None, None, None, DropPlaceholder(Some(state)), Some(og.country), og.hikeType)
  {
    OriginTextWithin(og, gap1, sep, gap2, word, rest, ';');
    ProcessInfoParts(name, origin);
    RangeNoneOf(name, 0, |name|, ',');
    assert name[0..|name|] == name;
    RunEndAt(name, 0, NotComma, |name|);
    OriginExample(NoInfo, origin, og, gap1, sep, gap2, word, rest, lead, state);
  }

  // test.py lines 8-18, cut into its pieces.

  lemma {:induction false} LanierNamePiece1()
    ensures "Lanier, Louis 'Georgia Ridge Runner" == (((("Lanier" + ", ") + "Louis") + " '") + "Georgia Ridge Runner")
  {
    assert "Lanier, Louis 'Georgia Ridge Runner" == "Lanier, Louis '" + "Georgia Ridge Runner";
    assert "Lanier, Louis '" == "Lanier, Louis" + " '";
    assert "Lanier, Louis" == "Lanier, " + "Louis";
    assert "Lanier, " == "Lanier" + ", ";
  }

  /** The name part of the next example, cut into its groups. */
  lemma {:induction false} LanierNameText()
    ensures "Lanier, Louis 'Georgia Ridge Runner'" == NameText(NameGroups("Lanier", "Louis", Some("Georgia Ridge Runner")))
  {
    assert "Lanier, Louis 'Georgia Ridge Runner'" == "Lanier, Louis 'Georgia Ridge Runner" + "'";
    LanierNamePiece1();
  }

  lemma {:induction false} LanierLastName()
    ensures ',' !in "Lanier" && ';' !in "Lanier" && IsStripped("Lanier")
  {
  }

  lemma {:induction false} LanierFirstName()
    ensures ';' !in "Louis" && '\'' !in "Louis" && IsStripped("Louis")
  {
  }

  lemma {:induction false} LanierTrailName()
    ensures ';' !in "Georgia Ridge Runner" && '\n' !in "Georgia Ridge Runner" && IsStripped("Georgia Ridge Runner")
  {
  }

  lemma {:induction false} LanierName()
    ensures NameReady("Lanier, Louis 'Georgia Ridge Runner'", NameGroups("Lanier", "Louis", Some("Georgia Ridge Runner")))
  {
    LanierNameText();
    LanierLastName();
    LanierFirstName();
    LanierTrailName();
  }

  /** The origin part of the next example, cut into its pieces. */
  lemma {:induction false} LanierOriginText()
    ensures " GA, USA," == OriginText(OriginGroups(" GA", "USA", None), " ", ",", "", "", "")
  {
    assert " GA, USA," == " GA," + " USA,";
    assert " GA," == " GA" + ",";
    assert " USA," == " " + "USA,";
    assert "USA," == "USA" + ",";
  }

  lemma {:induction false} LanierState()
    ensures ',' !in " GA" && ';' !in " GA"
    ensures " GA" == " " + "GA" && IsStripped("GA")
  {
  }

  lemma {:induction false} LanierCountry()
    ensures ',' !in "USA" && ';' !in "USA" && IsStripped("USA")
  {
  }

  lemma {:induction false} LanierOrigin()
    ensures OriginReady(" GA, USA,", OriginGroups(" GA", "USA", None),
                        " ", ",", "", "", "", " ", "GA")
  {
    LanierOriginText();
    LanierState();
    LanierCountry();
    AllInRangeIff(" ", 0, 1, Space);
  }

  /** test.py lines 8-18: a trailing comma and no hike type. */
  lemma {:induction false} LanierExample()
    ensures ProcessInfo("Lanier, Louis 'Georgia Ridge Runner'; GA, USA,")
         == ProcessedInfo(Some("Lanier"), Some("Louis"), Some("Georgia Ridge Runner"),
                          Some("GA"), Some("USA"), None)
  {
    assert "Lanier, Louis 'Georgia Ridge Runner'; GA, USA," == "Lanier, Louis 'Georgia Ridge Runner'" + ";" + " GA, USA,";
    LanierName();
    LanierOrigin();
    Example("Lanier, Louis 'Georgia Ridge Runner'", " GA, USA,",
            NameGroups("Lanier", "Louis", Some("Georgia Ridge Runner")),
            OriginGroups(" GA", "USA", None),
            " ", ",", "", "", "", " ", "GA");
  }

  // test.py lines 19-29, cut into its pieces.

  lemma {:induction false} MillerNamePiece3()
    ensures "F. Miller, George" == (("F. Miller" + ", ") + "George")
  {
    assert "F. Miller, George" == "F. Miller, " + "George";
    assert "F. Miller, " == "F. Miller" + ", ";
  }

  lemma {:induction false} MillerNamePiece2()
    ensures "F. Miller, George '" == ((("F. Miller" + ", ") + "George") + " '")
  {
    assert "F. Miller, George '" == "F. Miller, George" + " '";
    MillerNamePiece3();
  }

  lemma {:induction false} MillerNamePiece1()
    ensures "F. Miller, George ''-" == (((("F. Miller" + ", ") + "George") + " '") + "'-")
  {
    assert "F. Miller, George ''-" == "F. Miller, George '" + "'-";
    MillerNamePiece2();
  }

  /** The name part of the next example, cut into its groups. */
  lemma {:induction false} MillerNameText()
    ensures "F. Miller, George ''-'" == NameText(NameGroups("F. Miller", "George", Some("'-")))
  {
    assert "F. Miller, George ''-'" == "F. Miller, George ''-" + "'";
    MillerNamePiece1();
  }

  lemma {:induction false} MillerLastName()
    ensures ',' !in "F. Miller" && ';' !in "F. Miller" && IsStripped("F. Miller")
  {
  }

  lemma {:induction false} MillerFirstName()
    ensures ';' !in "George" && '\'' !in "George" && IsStripped("George")
  {
  }

  lemma {:induction false} MillerTrailName()
    ensures ';' !in "'-" && '\n' !in "'-" && IsStripped("'-")
  {
  }

  lemma {:induction false} MillerName()
    ensures NameReady("F. Miller, George ''-'", NameGroups("F. Miller", "George", Some("'-")))
  {
    MillerNameText();
    MillerLastName();
    MillerFirstName();
    MillerTrailName();
  }

  /** The origin part of the next example, cut into its pieces. */
  lemma {:induction false} MillerOriginText()
    ensures " '-, USA, -" == OriginText(OriginGroups(" '-", "USA", None), " ", ",", " ", "", "-")
  {
    assert " '-, USA, -" == " '-," + " USA, -";
    assert " '-," == " '-" + ",";
    assert " USA, -" == " " + "USA, -";
    assert "USA, -" == "USA" + ", -";
    assert ", -" == "," + " -";
    assert " -" == " " + "-";
  }

  lemma {:induction false} MillerState()
    ensures ',' !in " '-" && ';' !in " '-"
    ensures " '-" == " " + "'-" && IsStripped("'-")
  {
  }

  lemma {:induction false} MillerCountry()
    ensures ',' !in "USA" && ';' !in "USA" && IsStripped("USA")
  {
  }

  lemma {:induction false} MillerOrigin()
    ensures OriginReady(" '-, USA, -", OriginGroups(" '-", "USA", None),
                        " ", ",", " ", "", "-", " ", "'-")
  {
    MillerOriginText();
    MillerState();
    MillerCountry();
    AllInRangeIff(" ", 0, 1, Space);
  }

  /** test.py lines 19-29: the placeholder as trail name and as state, and
      `-` where a hike type would be. */
  lemma {:induction false} MillerExample()
    ensures ProcessInfo("F. Miller, George ''-'; '-, USA, -")
         == ProcessedInfo(Some("F. Miller"), Some("George"), None, None, Some("USA"), None)
  {
    assert "F. Miller, George ''-'; '-, USA, -" == "F. Miller, George ''-'" + ";" + " '-, USA, -";
    MillerName();
    MillerOrigin();
    Example("F. Miller, George ''-'", " '-, USA, -",
            NameGroups("F. Miller", "George", Some("'-")),
            OriginGroups(" '-", "USA", None),
            " ", ",", " ", "", "-", " ", "'-");
  }

  // test.py lines 30-40, cut into its pieces.

  lemma {:induction false} BradleyNamePiece1()
    ensures "Bradley, Adam '¡El Monstro!" == (((("Bradley" + ", ") + "Adam") + " '") + "¡El Monstro!")
  {
    assert "Bradley, Adam '¡El Monstro!" == "Bradley, Adam '" + "¡El Monstro!";
    assert "Bradley, Adam '" == "Bradley, Adam" + " '";
    assert "Bradley, Adam" == "Bradley, " + "Adam";
    assert "Bradley, " == "Bradley" + ", ";
  }

  /** The name part of the next example, cut into its groups. */
  lemma {:induction false} BradleyNameText()
    ensures "Bradley, Adam '¡El Monstro!'" == NameText(NameGroups("Bradley", "Adam", Some("¡El Monstro!")))
  {
    assert "Bradley, Adam '¡El Monstro!'" == "Bradley, Adam '¡El Monstro!" + "'";
    BradleyNamePiece1();
  }

  lemma {:induction false} BradleyLastName()
    ensures ',' !in "Bradley" && ';' !in "Bradley" && IsStripped("Bradley")
  {
  }

  lemma {:induction false} BradleyFirstName()
    ensures ';' !in "Adam" && '\'' !in "Adam" && IsStripped("Adam")
  {
  }

  lemma {:induction false} BradleyTrailName()
    ensures ';' !in "¡El Monstro!" && '\n' !in "¡El Monstro!" && IsStripped("¡El Monstro!")
  {
  }

  lemma {:induction false} BradleyName()
    ensures NameReady("Bradley, Adam '¡El Monstro!'", NameGroups("Bradley", "Adam", Some("¡El Monstro!")))
  {
    BradleyNameText();
    BradleyLastName();
    BradleyFirstName();
    BradleyTrailName();
  }

  /** The origin part of the next example, cut into its pieces. */
  lemma {:induction false} BradleyOriginText()
    ensures " NV, USA, SOBO" == OriginText(OriginGroups(" NV", "USA", Some("SOBO")), " ", ",", " ", "SOBO", "")
  {
    assert " NV, USA, SOBO" == " NV," + " USA, SOBO";
    assert " NV," == " NV" + ",";
    assert " USA, SOBO" == " " + "USA, SOBO";
    assert "USA, SOBO" == "USA" + ", SOBO";
    assert ", SOBO" == "," + " SOBO";
    assert " SOBO" == " " + "SOBO";
  }

  lemma {:induction false} BradleyState()
    ensures ',' !in " NV" && ';' !in " NV"
    ensures " NV" == " " + "NV" && IsStripped("NV")
  {
  }

  lemma {:induction false} BradleyCountry()
    ensures ',' !in "USA" && ';' !in "USA" && IsStripped("USA")
  {
  }

  lemma {:induction false} BradleyOrigin()
    ensures OriginReady(" NV, USA, SOBO", OriginGroups(" NV", "USA", Some("SOBO")),
                        " ", ",", " ", "SOBO", "", " ", "NV")
  {
    BradleyOriginText();
    BradleyState();
    BradleyCountry();
    AllInRangeIff(" ", 0, 1, Space);
    AllInRangeIff("SOBO", 0, 4, Word);
  }

  /** test.py lines 30-40: a trail name outside ASCII and a hike type. */
  lemma {:induction false} BradleyExample()
    ensures ProcessInfo("Bradley, Adam '¡El Monstro!'; NV, USA, SOBO")
         == ProcessedInfo(Some("Bradley"), Some("Adam"), Some("¡El Monstro!"),
                          Some("NV"), Some("USA"), Some("SOBO"))
  {
    assert "Bradley, Adam '¡El Monstro!'; NV, USA, SOBO" == "Bradley, Adam '¡El Monstro!'" + ";" + " NV, USA, SOBO";
    BradleyName();
    BradleyOrigin();
    Example("Bradley, Adam '¡El Monstro!'", " NV, USA, SOBO",
            NameGroups("Bradley", "Adam", Some("¡El Monstro!")),
            OriginGroups(" NV", "USA", Some("SOBO")),
            " ", ",", " ", "SOBO", "", " ", "NV");
  }

  // test.py lines 41-51, cut into its pieces.

  lemma {:induction false} ShattuckNamePiece3()
    ensures "H. Shattuck, James" == (("H. Shattuck" + ", ") + "James")
  {
    assert "H. Shattuck, James" == "H. Shattuck, " + "James";
    assert "H. Shattuck, " == "H. Shattuck" + ", ";
  }

  lemma {:induction false} ShattuckNamePiece2()
    ensures "H. Shattuck, James '" == ((("H. Shattuck" + ", ") + "James") + " '")
  {
    assert "H. Shattuck, James '" == "H. Shattuck, James" + " '";
    ShattuckNamePiece3();
  }

  lemma {:induction false} ShattuckNamePiece1()
    ensures "H. Shattuck, James ''-" == (((("H. Shattuck" + ", ") + "James") + " '") + "'-")
  {
    assert "H. Shattuck, James ''-" == "H. Shattuck, James '" + "'-";
    ShattuckNamePiece2();
  }

  /** The name part of the next example, cut into its groups. */
  lemma {:induction false} ShattuckNameText()
    ensures "H. Shattuck, James ''-'" == NameText(NameGroups("H. Shattuck", "James", Some("'-")))
  {
    assert "H. Shattuck, James ''-'" == "H. Shattuck, James ''-" + "'";
    ShattuckNamePiece1();
  }

  lemma {:induction false} ShattuckLastName()
    ensures ',' !in "H. Shattuck" && ';' !in "H. Shattuck" && IsStripped("H. Shattuck")
  {
  }

  lemma {:induction false} ShattuckFirstName()
    ensures ';' !in "James" && '\'' !in "James" && IsStripped("James")
  {
  }

  lemma {:induction false} ShattuckTrailName()
    ensures ';' !in "'-" && '\n' !in "'-" && IsStripped("'-")
  {
  }

  lemma {:induction false} ShattuckName()
    ensures NameReady("H. Shattuck, James ''-'", NameGroups("H. Shattuck", "James", Some("'-")))
  {
    ShattuckNameText();
    ShattuckLastName();
    ShattuckFirstName();
    ShattuckTrailName();
  }

  /** The origin part of the next example, cut into its pieces. */
  lemma {:induction false} ShattuckOriginText()
    ensures " CT, USA, -" == OriginText(OriginGroups(" CT", "USA", None), " ", ",", " ", "", "-")
  {
    assert " CT, USA, -" == " CT," + " USA, -";
    assert " CT," == " CT" + ",";
    assert " USA, -" == " " + "USA, -";
    assert "USA, -" == "USA" + ", -";
    assert ", -" == "," + " -";
    assert " -" == " " + "-";
  }

  lemma {:induction false} ShattuckState()
    ensures ',' !in " CT" && ';' !in " CT"
    ensures " CT" == " " + "CT" && IsStripped("CT")
  {
  }

  lemma {:induction false} ShattuckCountry()
    ensures ',' !in "USA" && ';' !in "USA" && IsStripped("USA")
  {
  }

  lemma {:induction false} ShattuckOrigin()
    ensures OriginReady(" CT, USA, -", OriginGroups(" CT", "USA", None),
                        " ", ",", " ", "", "-", " ", "CT")
  {
    ShattuckOriginText();
    ShattuckState();
    ShattuckCountry();
    AllInRangeIff(" ", 0, 1, Space);
  }

  /** test.py lines 41-51: the placeholder trail name with a real state. */
  lemma {:induction false} ShattuckExample()
    ensures ProcessInfo("H. Shattuck, James ''-'; CT, USA, -")
         == ProcessedInfo(Some("H. Shattuck"), Some("James"), None, Some("CT"), Some("USA"), None)
  {
    assert "H. Shattuck, James ''-'; CT, USA, -" == "H. Shattuck, James ''-'" + ";" + " CT, USA, -";
    ShattuckName();
    ShattuckOrigin();
    Example("H. Shattuck, James ''-'", " CT, USA, -",
            NameGroups("H. Shattuck", "James", Some("'-")),
            OriginGroups(" CT", "USA", None),
            " ", ",", " ", "", "-", " ", "CT");
  }

  // test.py lines 52-62, cut into its pieces.

  lemma {:induction false} McDonaldOriginPiece2()
    ensures "United States, NOBO" == ("United States" + ("," + (" " + ("NOBO" + ""))))
  {
    assert "United States, NOBO" == "United States" + ", NOBO";
    assert ", NOBO" == "," + " NOBO";
    assert " NOBO" == " " + "NOBO";
  }

  lemma {:induction false} McDonaldOriginPiece1()
    ensures " United States, NOBO" == (" " + ("United States" + ("," + (" " + ("NOBO" + "")))))
  {
    assert " United States, NOBO" == " " + "United States, NOBO";
    McDonaldOriginPiece2();
  }

  lemma {:induction false} McDonaldNamePiece3()
    ensures "McDonald, Brittany" == (("McDonald" + ", ") + "Brittany")
  {
    assert "McDonald, Brittany" == "McDonald, " + "Brittany";
    assert "McDonald, " == "McDonald" + ", ";
  }

  lemma {:induction false} McDonaldNamePiece2()
    ensures "McDonald, Brittany '" == ((("McDonald" + ", ") + "Brittany") + " '")
  {
    assert "McDonald, Brittany '" == "McDonald, Brittany" + " '";
    McDonaldNamePiece3();
  }

  lemma {:induction false} McDonaldNamePiece1()
    ensures "McDonald, Brittany 'Puddin'" == (((("McDonald" + ", ") + "Brittany") + " '") + "Puddin'")
  {
    assert "McDonald, Brittany 'Puddin'" == "McDonald, Brittany '" + "Puddin'";
    McDonaldNamePiece2();
  }

  /** The name part of the next example, cut into its groups. */
  lemma {:induction false} McDonaldNameText()
    ensures "McDonald, Brittany 'Puddin''" == NameText(NameGroups("McDonald", "Brittany", Some("Puddin'")))
  {
    assert "McDonald, Brittany 'Puddin''" == "McDonald, Brittany 'Puddin'" + "'";
    McDonaldNamePiece1();
  }

  lemma {:induction false} McDonaldLastName()
    ensures ',' !in "McDonald" && ';' !in "McDonald" && IsStripped("McDonald")
  {
  }

  lemma {:induction false} McDonaldFirstName()
    ensures ';' !in "Brittany" && '\'' !in "Brittany" && IsStripped("Brittany")
  {
  }

  lemma {:induction false} McDonaldTrailName()
    ensures ';' !in "Puddin'" && '\n' !in "Puddin'" && IsStripped("Puddin'")
  {
  }

  lemma {:induction false} McDonaldName()
    ensures NameReady("McDonald, Brittany 'Puddin''", NameGroups("McDonald", "Brittany", Some("Puddin'")))
  {
    McDonaldNameText();
    McDonaldLastName();
    McDonaldFirstName();
    McDonaldTrailName();
  }

  /** The origin part of the next example, cut into its pieces. */
  lemma {:induction false} McDonaldOriginText()
    ensures " Virginia, United States, NOBO" == OriginText(OriginGroups(" Virginia", "United States", Some("NOBO")), " ", ",", " ", "NOBO", "")
  {
    assert " Virginia, United States, NOBO" == " Virginia," + " United States, NOBO";
    assert " Virginia," == " Virginia" + ",";
    McDonaldOriginPiece1();
  }

  lemma {:induction false} McDonaldState()
    ensures ',' !in " Virginia" && ';' !in " Virginia"
    ensures " Virginia" == " " + "Virginia" && IsStripped("Virginia")
  {
  }

  lemma {:induction false} McDonaldCountry()
    ensures ',' !in "United States" && ';' !in "United States" && IsStripped("United States")
  {
  }

  lemma {:induction false} McDonaldOrigin()
    ensures OriginReady(" Virginia, United States, NOBO", OriginGroups(" Virginia", "United States", Some("NOBO")),
                        " ", ",", " ", "NOBO", "", " ", "Virginia")
  {
    McDonaldOriginText();
    McDonaldState();
    McDonaldCountry();
    AllInRangeIff(" ", 0, 1, Space);
    AllInRangeIff("NOBO", 0, 4, Word);
  }

  /** test.py lines 52-62: a trail name ending in an apostrophe, and a
      country of two words. */
  lemma {:induction false} McDonaldExample()
    ensures ProcessInfo("McDonald, Brittany 'Puddin''; Virginia, United States, NOBO")
         == ProcessedInfo(Some("McDonald"), Some("Brittany"), Some("Puddin'"),
                          Some("Virginia"), Some("United States"), Some("NOBO"))
  {
    assert "McDonald, Brittany 'Puddin''; Virginia, United States, NOBO" == "McDonald, Brittany 'Puddin''" + ";" + " Virginia, United States, NOBO";
    McDonaldName();
    McDonaldOrigin();
    Example("McDonald, Brittany 'Puddin''", " Virginia, United States, NOBO",
            NameGroups("McDonald", "Brittany", Some("Puddin'")),
            OriginGroups(" Virginia", "United States", Some("NOBO")),
            " ", ",", " ", "NOBO", "", " ", "Virginia");
  }

  // test.py lines 63-73, cut into its pieces.

  lemma {:induction false} OKeefeOriginPiece2()
    ensures "United States, NOBO" == ("United States" + ("," + (" " + ("NOBO" + ""))))
  {
    assert "United States, NOBO" == "United States" + ", NOBO";
    assert ", NOBO" == "," + " NOBO";
    assert " NOBO" == " " + "NOBO";
  }

  lemma {:induction false} OKeefeOriginPiece1()
    ensures " United States, NOBO" == (" " + ("United States" + ("," + (" " + ("NOBO" + "")))))
  {
    assert " United States, NOBO" == " " + "United States, NOBO";
    OKeefeOriginPiece2();
  }

  lemma {:induction false} OKeefeNamePiece2()
    ensures "O'Keefe, Emily '" == ((("O'Keefe" + ", ") + "Emily") + " '")
  {
    assert "O'Keefe, Emily '" == "O'Keefe, Emily" + " '";
    assert "O'Keefe, Emily" == "O'Keefe, " + "Emily";
    assert "O'Keefe, " == "O'Keefe" + ", ";
  }

  lemma {:induction false} OKeefeNamePiece1()
    ensures "O'Keefe, Emily 'Emily O'Keefe" == (((("O'Keefe" + ", ") + "Emily") + " '") + "Emily O'Keefe")
  {
    assert "O'Keefe, Emily 'Emily O'Keefe" == "O'Keefe, Emily '" + "Emily O'Keefe";
    OKeefeNamePiece2();
  }

  /** The name part of the next example, cut into its groups. */
  lemma {:induction false} OKeefeNameText()
    ensures "O'Keefe, Emily 'Emily O'Keefe'" == NameText(NameGroups("O'Keefe", "Emily", Some("Emily O'Keefe")))
  {
    assert "O'Keefe, Emily 'Emily O'Keefe'" == "O'Keefe, Emily 'Emily O'Keefe" + "'";
    OKeefeNamePiece1();
  }

  lemma {:induction false} OKeefeLastName()
    ensures ',' !in "O'Keefe" && ';' !in "O'Keefe" && IsStripped("O'Keefe")
  {
  }

  lemma {:induction false} OKeefeFirstName()
    ensures ';' !in "Emily" && '\'' !in "Emily" && IsStripped("Emily")
  {
  }

  lemma {:induction false} OKeefeTrailName()
    ensures ';' !in "Emily O'Keefe" && '\n' !in "Emily O'Keefe" && IsStripped("Emily O'Keefe")
  {
  }

  lemma {:induction false} OKeefeName()
    ensures NameReady("O'Keefe, Emily 'Emily O'Keefe'", NameGroups("O'Keefe", "Emily", Some("Emily O'Keefe")))
  {
    OKeefeNameText();
    OKeefeLastName();
    OKeefeFirstName();
    OKeefeTrailName();
  }

  /** The origin part of the next example, cut into its pieces. */
  lemma {:induction false} OKeefeOriginText()
    ensures " VA, United States, NOBO" == OriginText(OriginGroups(" VA", "United States", Some("NOBO")), " ", ",", " ", "NOBO", "")
  {
    assert " VA, United States, NOBO" == " VA," + " United States, NOBO";
    assert " VA," == " VA" + ",";
    OKeefeOriginPiece1();
  }

  lemma {:induction false} OKeefeState()
    ensures ',' !in " VA" && ';' !in " VA"
    ensures " VA" == " " + "VA" && IsStripped("VA")
  {
  }

  lemma {:induction false} OKeefeCountry()
    ensures ',' !in "United States" && ';' !in "United States" && IsStripped("United States")
  {
  }

  lemma {:induction false} OKeefeOrigin()
    ensures OriginReady(" VA, United States, NOBO", OriginGroups(" VA", "United States", Some("NOBO")),
                        " ", ",", " ", "NOBO", "", " ", "VA")
  {
    OKeefeOriginText();
    OKeefeState();
    OKeefeCountry();
    AllInRangeIff(" ", 0, 1, Space);
    AllInRangeIff("NOBO", 0, 4, Word);
  }

  /** test.py lines 63-73: apostrophes inside the last name and inside the
      trail name. */
  lemma {:induction false} OKeefeExample()
    ensures ProcessInfo("O'Keefe, Emily 'Emily O'Keefe'; VA, United States, NOBO")
         == ProcessedInfo(Some("O'Keefe"), Some("Emily"), Some("Emily O'Keefe"),
                          Some("VA"), Some("United States"), Some("NOBO"))
  {
    assert "O'Keefe, Emily 'Emily O'Keefe'; VA, United States, NOBO" == "O'Keefe, Emily 'Emily O'Keefe'" + ";" + " VA, United States, NOBO";
    OKeefeName();
    OKeefeOrigin();
    Example("O'Keefe, Emily 'Emily O'Keefe'", " VA, United States, NOBO",
            NameGroups("O'Keefe", "Emily", Some("Emily O'Keefe")),
            OriginGroups(" VA", "United States", Some("NOBO")),
            " ", ",", " ", "NOBO", "", " ", "VA");
  }

  // The placeholder example, cut into its pieces.

  /** The name part of the next example, cut into its groups. */
  lemma {:induction false} PlaceholderNameText()
    ensures "'-, B" == NameText(NameGroups("'-", "B", None))
  {
    assert "'-, B" == "'-, " + "B";
    assert "'-, " == "'-" + ", ";
  }

  lemma {:induction false} PlaceholderLastName()
    ensures ',' !in "'-" && ';' !in "'-" && IsStripped("'-")
  {
  }

  lemma {:induction false} PlaceholderFirstName()
    ensures ';' !in "B" && '\'' !in "B" && IsStripped("B")
  {
  }

  lemma {:induction false} PlaceholderName()
    ensures NameReady("'-, B", NameGroups("'-", "B", None))
  {
    PlaceholderNameText();
    PlaceholderLastName();
    PlaceholderFirstName();
  }

  /** The origin part of the next example, cut into its pieces. */
  lemma {:induction false} PlaceholderOriginText()
    ensures " '-, '-" == OriginText(OriginGroups(" '-", "'-", None), " ", "", "", "", "")
  {
    assert " '-, '-" == " '-," + " '-";
    assert " '-," == " '-" + ",";
    assert " '-" == " " + "'-";
  }

  lemma {:induction false} PlaceholderState()
    ensures ',' !in " '-" && ';' !in " '-"
    ensures " '-" == " " + "'-" && IsStripped("'-")
  {
  }

  lemma {:induction false} PlaceholderCountry()
    ensures ',' !in "'-" && ';' !in "'-" && IsStripped("'-")
  {
  }

  lemma {:induction false} PlaceholderOrigin()
    ensures OriginReady(" '-, '-", OriginGroups(" '-", "'-", None),
                        " ", "", "", "", "", " ", "'-")
  {
    PlaceholderOriginText();
    PlaceholderState();
    PlaceholderCountry();
    AllInRangeIff(" ", 0, 1, Space);
  }

  /** The placeholder is suppressed in the state but kept as the last name
      and as the country. */
  lemma {:induction false} PlaceholderExample()
    ensures ProcessInfo("'-, B; '-, '-")
         == ProcessedInfo(Some("'-"), Some("B"), None, None, Some("'-"), None)
  {
    assert "'-, B; '-, '-" == "'-, B" + ";" + " '-, '-";
    PlaceholderName();
    PlaceholderOrigin();
    Example("'-, B", " '-, '-",
            NameGroups("'-", "B", None),
            OriginGroups(" '-", "'-", None),
            " ", "", "", "", "", " ", "'-");
  }

  // The name-mismatch example, cut into its pieces.

  lemma {:induction false} SmithOriginText()
    ensures " GA, USA, NOBO" == OriginText(OriginGroups(" GA", "USA", Some("NOBO")), " ", ",", " ", "NOBO", "")
  {
    assert " GA, USA, NOBO" == " GA," + " USA, NOBO";
    assert " GA," == " GA" + ",";
    assert " USA, NOBO" == " " + "USA, NOBO";
    assert "USA, NOBO" == "USA" + ", NOBO";
    assert ", NOBO" == "," + " NOBO";
    assert " NOBO" == " " + "NOBO";
  }

  lemma {:induction false} SmithState()
    ensures ',' !in " GA" && ';' !in " GA"
    ensures " GA" == " " + "GA" && IsStripped("GA")
  {
  }

  lemma {:induction false} SmithCountry()
    ensures ',' !in "USA" && ';' !in "USA" && IsStripped("USA")
  {
  }

  lemma {:induction false} SmithOrigin()
    ensures OriginReady(" GA, USA, NOBO", OriginGroups(" GA", "USA", Some("NOBO")),
                        " ", ",", " ", "NOBO", "", " ", "GA")
  {
    SmithOriginText();
    SmithState();
    SmithCountry();
    AllInRangeIff(" ", 0, 1, Space);
    AllInRangeIff("NOBO", 0, 4, Word);
  }

  /** A name part without ", " does not match name_pattern, yet the origin
      part is still read. */
  lemma {:induction false} NameMismatchExample()
    ensures ProcessInfo("Smith; GA, USA, NOBO")
         == ProcessedInfo(None, None, None, Some("GA"), Some("USA"), Some("NOBO"))
  {
    assert "Smith; GA, USA, NOBO" == "Smith" + ";" + " GA, USA, NOBO";
    SmithOrigin();
    MismatchExample("Smith", " GA, USA, NOBO", OriginGroups(" GA", "USA", Some("NOBO")),
                    " ", ",", " ", "NOBO", "", " ", "GA");
  }
}
