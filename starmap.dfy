/**
 * StarMap's constellation bookkeeping. The player joins two stars (named by
 * their HR catalogue numbers) with a line; the line is correct when some
 * constellation lists the two stars next to each other. Each constellation
 * keeps the set of lines it needs and the set of those already drawn, and is
 * found once all of them are. Lines are ids `lo-hi` with the smaller number
 * first, here a pair. The star catalogue is loaded before the game and enters
 * as a `Catalogue`.
 */
module StarMap {
  import opened Wrappers

  // ----- Line ids -----

  /** `createLineId`'s "lo-hi" string, as the pair it spells out. */
  datatype LineId = LineId(lo: int, hi: int)

  /** `createLineId(hr1, hr2)`: the two numbers, sorted. */
  function CreateLineId(hr1: int, hr2: int): LineId
  {
    if hr1 <= hr2 then LineId(hr1, hr2) else LineId(hr2, hr1)
  }

  /**
   * A line id does not depend on the direction the line was drawn in, has
   * the smaller number first, and names exactly the two stars: two ids are
   * equal exactly when they join the same two stars.
   */
  lemma CreateLineIdSpec(a: int, b: int, c: int, d: int)
    ensures CreateLineId(a, b) == CreateLineId(b, a)
    ensures CreateLineId(a, b).lo <= CreateLineId(a, b).hi
    ensures {CreateLineId(a, b).lo, CreateLineId(a, b).hi} == {a, b}
    ensures CreateLineId(a, b) == CreateLineId(c, d) <==> (a == c && b == d) || (a == d && b == c)
  {
  }

  // ----- The catalogue -----

  /**
   * `constellationsData`: each constellation's stars in drawing order, with
   * its names in the order `Object.entries` lists them.
   */
  datatype Catalogue = Catalogue(names: seq<string>, stars: map<string, seq<int>>)

  /** An object's keys: listed once each, and exactly the names that have stars. */
  ghost predicate WellFormed(cat: Catalogue)
  {
    && (forall i, j :: 0 <= i < j < |cat.names| ==> cat.names[i] != cat.names[j])
    && (forall n :: n in cat.stars <==> n in cat.names)
  }

  /** Stars `a` and `b` are next to each other in `stars`, in either order. */
  predicate Linked(stars: seq<int>, a: int, b: int)
  {
    exists i :: 0 <= i < |stars| - 1 && ((stars[i] == a && stars[i + 1] == b) || (stars[i] == b && stars[i + 1] == a))
  }

  /** The id of the line from the `i`th star to the next one. */
  function LineAt(stars: seq<int>, i: int): LineId
    requires 0 <= i < |stars| - 1
  {
    CreateLineId(stars[i], stars[i + 1])
  }

  /** The ids of the lines between consecutive stars. */
  function Required(stars: seq<int>): set<LineId>
  {
    set i | 0 <= i < |stars| - 1 :: LineAt(stars, i)
  }

  /** A line is one of a constellation's required lines exactly when the constellation joins its stars. */
  lemma RequiredLinked(stars: seq<int>, a: int, b: int)
    ensures CreateLineId(a, b) in Required(stars) <==> Linked(stars, a, b)
  {
    if CreateLineId(a, b) in Required(stars) {
      var i :| 0 <= i < |stars| - 1 && LineAt(stars, i) == CreateLineId(a, b);
      CreateLineIdSpec(stars[i], stars[i + 1], a, b);
    }
    if Linked(stars, a, b) {
      var i :| 0 <= i < |stars| - 1 && ((stars[i] == a && stars[i + 1] == b) || (stars[i] == b && stars[i + 1] == a));
      CreateLineIdSpec(stars[i], stars[i + 1], a, b);
      assert LineAt(stars, i) in Required(stars);
    }
  }

  /** The constellations, among `names`, that join `a` and `b`, in order: `belongsToConstellations`. */
  function Joining(names: seq<string>, stars: map<string, seq<int>>, a: int, b: int): seq<string>
    requires forall n :: n in names ==> n in stars
  {
    if |names| == 0 then []
    else
      var last := names[|names| - 1];
      Joining(names[..|names| - 1], stars, a, b) + (if Linked(stars[last], a, b) then [last] else [])
  }

  predicate NoDuplicates(s: seq<string>)
  {
    forall i, j :: 0 <= i < j < |s| ==> s[i] != s[j]
  }

  /**
   * `validateLine` names exactly the constellations that join the two
   * stars, each once and in catalogue order; it finds one exactly when the
   * line is in some constellation.
   */
  lemma {:induction false} JoiningSpec(names: seq<string>, stars: map<string, seq<int>>, a: int, b: int)
    requires forall n :: n in names ==> n in stars
    requires NoDuplicates(names)
    ensures forall n :: n in Joining(names, stars, a, b) <==> n in names && Linked(stars[n], a, b)
    ensures NoDuplicates(Joining(names, stars, a, b))
    ensures |Joining(names, stars, a, b)| > 0 <==> exists n :: n in names && Linked(stars[n], a, b)
  {
    if |names| > 0 {
      var init := names[..|names| - 1];
      var last := names[|names| - 1];
      assert forall n :: n in names <==> n in init || n == last;
      JoiningSpec(init, stars, a, b);
      var r := Joining(names, stars, a, b);
      var r0 := Joining(init, stars, a, b);
      assert last !in init;
      if Linked(stars[last], a, b) {
        assert r == r0 + [last];
        forall i, j | 0 <= i < j < |r|
          ensures r[i] != r[j]
        {
          if j == |r0| {
            assert r[i] == r0[i] && r0[i] in r0;
          } else {
            assert r[i] == r0[i] && r[j] == r0[j];
          }
        }
        assert r[|r| - 1] == last;
      } else {
        assert r == r0;
      }
    }
  }

  /** The constellations whose star list holds `hr`: the first loop of `isStarFullyCompleted`. */
  function Containing(names: seq<string>, stars: map<string, seq<int>>, hr: int): seq<string>
    requires forall n :: n in names ==> n in stars
  {
    if |names| == 0 then []
    else
      var last := names[|names| - 1];
      Containing(names[..|names| - 1], stars, hr) + (if hr in stars[last] then [last] else [])
  }

  lemma {:induction false} ContainingSpec(names: seq<string>, stars: map<string, seq<int>>, hr: int)
    requires forall n :: n in names ==> n in stars
    ensures forall n :: n in Containing(names, stars, hr) <==> n in names && hr in stars[n]
  {
    if |names| > 0 {
      assert forall n :: n in names <==> n in names[..|names| - 1] || n == names[|names| - 1];
      ContainingSpec(names[..|names| - 1], stars, hr);
    }
  }

  /** `isStarFullyCompleted(hr)`: the star is in some constellation, and each one it is in has been found. */
  function FullyCompleted(cat: Catalogue, found: seq<string>, hr: int): bool
    requires WellFormed(cat)
  {
    var belongs := Containing(cat.names, cat.stars, hr);
    if |belongs| == 0 then false
    else forall k :: 0 <= k < |belongs| ==> belongs[k] in found
  }

  /** A star in no constellation is never complete; otherwise it is complete when all its constellations are found. */
  lemma FullyCompletedSpec(cat: Catalogue, found: seq<string>, hr: int)
    requires WellFormed(cat)
    ensures FullyCompleted(cat, found, hr) <==>
      (exists n :: n in cat.names && hr in cat.stars[n]) &&
      (forall n :: n in cat.names && hr in cat.stars[n] ==> n in found)
  {
    var belongs := Containing(cat.names, cat.stars, hr);
    ContainingSpec(cat.names, cat.stars, hr);
    if |belongs| > 0 {
      assert belongs[0] in belongs;
    }
    if (exists n :: n in cat.names && hr in cat.stars[n]) && (forall n :: n in cat.names && hr in cat.stars[n] ==> n in found) {
      forall k | 0 <= k < |belongs|
        ensures belongs[k] in found
      {
        assert belongs[k] in belongs;
      }
    }
  }

  // ----- The game state -----

  /** An entry of `constellationProgress`. */
  datatype Progress = Progress(required: set<LineId>, completed: set<LineId>)

  datatype LineState = Correct | Wrong

  /** An entry of `drawnLines`, once `validateLine` has set its state and `belongsTo`. */
  datatype Line = Line(star1: int, star2: int, state: LineState, belongsTo: seq<string>)

  /** The game's globals as a value. */
  datatype Sky = Sky(
    progress: map<string, Progress>,
    correctLines: set<LineId>,
    found: seq<string>,
    drawn: seq<Line>,
    selected: Option<int>)

  /** `initConstellationTracking`: each constellation needs the lines between its consecutive stars, none drawn yet. */
  function Tracked(names: seq<string>, stars: map<string, seq<int>>, base: map<string, Progress>): map<string, Progress>
    requires forall n :: n in names ==> n in stars
  {
    if |names| == 0 then base
    else
      var last := names[|names| - 1];
      Tracked(names[..|names| - 1], stars, base)[last := Progress(Required(stars[last]), {})]
  }

  /** After tracking, each named constellation requires its consecutive lines and has completed none; other entries stay. */
  lemma {:induction false} TrackedSpec(names: seq<string>, stars: map<string, seq<int>>, base: map<string, Progress>)
    requires forall n :: n in names ==> n in stars
    ensures var t := Tracked(names, stars, base);
      && (forall n :: n in t <==> n in base || n in names)
      && (forall n :: n in names ==> t[n] == Progress(Required(stars[n]), {}))
      && (forall n :: n in base && n !in names ==> t[n] == base[n])
  {
    if |names| > 0 {
      assert forall n :: n in names <==> n in names[..|names| - 1] || n == names[|names| - 1];
      TrackedSpec(names[..|names| - 1], stars, base);
    }
  }

  /** The required lines of `stars` that are among `lines`. */
  function Reached(stars: seq<int>, lines: set<LineId>, upTo: int): set<LineId>
  {
    set i | 0 <= i < upTo && i < |stars| - 1 && LineAt(stars, i) in lines :: LineAt(stars, i)
  }

  lemma ReachedNext(stars: seq<int>, lines: set<LineId>, i: int)
    requires 0 <= i < |stars| - 1
    ensures Reached(stars, lines, i + 1) == Reached(stars, lines, i) + (if LineAt(stars, i) in lines then {LineAt(stars, i)} else {})
  {
    var next := Reached(stars, lines, i) + (if LineAt(stars, i) in lines then {LineAt(stars, i)} else {});
    forall id | id in Reached(stars, lines, i + 1)
      ensures id in next
    {
      var j :| 0 <= j < i + 1 && j < |stars| - 1 && LineAt(stars, j) in lines && LineAt(stars, j) == id;
      if j < i {
        assert id in Reached(stars, lines, i);
      }
    }
  }

  lemma ReachedAll(stars: seq<int>, lines: set<LineId>)
    ensures Reached(stars, lines, |stars|) == Required(stars) * lines
  {
    forall id | id in Required(stars) * lines
      ensures id in Reached(stars, lines, |stars|)
    {
      var i :| 0 <= i < |stars| - 1 && LineAt(stars, i) == id;
    }
  }

  /**
   * `checkConstellationCompletion(name)`: the drawn lines among the
   * required ones join `completed`; when as many are completed as are
   * required and the constellation is not yet found, it is appended to
   * `foundConstellations` (`onConstellationComplete`).
   */
  function Checked(cat: Catalogue, s: Sky, name: string): Sky
  {
    if name !in s.progress || name !in cat.stars then s
    else
      var p := s.progress[name];
      var completed := p.completed + Required(cat.stars[name]) * s.correctLines;
      var s' := s.(progress := s.progress[name := p.(completed := completed)]);
      if |completed| == |p.required| && name !in s.found then s'.(found := s.found + [name]) else s'
  }

  /** The `forEach` over `belongsTo` in `validateLine`. */
  function CheckedAll(cat: Catalogue, s: Sky, names: seq<string>): Sky
  {
    if |names| == 0 then s else Checked(cat, CheckedAll(cat, s, names[..|names| - 1]), names[|names| - 1])
  }

  /**
   * `attemptDrawLine(a, b)`: the line is drawn and validated. A correct line
   * records its constellations, joins `correctLines`, and has each of them
   * checked for completion; a wrong one only records that it is wrong.
   */
  function Validated(cat: Catalogue, s: Sky, a: int, b: int): Sky
    requires WellFormed(cat)
  {
    var belongs := Joining(cat.names, cat.stars, a, b);
    if |belongs| > 0 then
      CheckedAll(cat, s.(drawn := s.drawn + [Line(a, b, Correct, belongs)], correctLines := s.correctLines + {CreateLineId(a, b)}), belongs)
    else
      s.(drawn := s.drawn + [Line(a, b, Wrong, [])])
  }

  /**
   * `handleStarClick(hr)`: a star whose constellations are all found is
   * ignored; otherwise the first click selects it, a second click on it
   * deselects it, and a click on another star draws a line from the selected
   * one and clears the selection.
   */
  function Clicked(cat: Catalogue, s: Sky, hr: int): Sky
    requires WellFormed(cat)
  {
    if FullyCompleted(cat, s.found, hr) then s
    else if s.selected.None? then s.(selected := Some(hr))
    else if s.selected.value == hr then s.(selected := None)
    else Validated(cat, s, s.selected.value, hr).(selected := None)
  }

  /** `resetGame`: no lines, nothing found, nothing completed, nothing selected; the required lines stay. */
  function ResetSky(s: Sky): Sky
  {
    Sky(map n | n in s.progress :: s.progress[n].(completed := {}), {}, [], [], None)
  }

  // ----- The invariant -----

  /**
   * What holds of the game at every moment: each tracked constellation is
   * in the catalogue, requires exactly its consecutive lines, and has
   * completed only required lines that were drawn correctly; every correct
   * line is a line of some constellation; no constellation is found twice,
   * and a found one has all its required lines completed; and each drawn
   * line records the constellations it joins, and is correct exactly when
   * there is one, its id then being among the correct lines.
   */
  ghost predicate Valid(cat: Catalogue, s: Sky)
  {
    && WellFormed(cat)
    && (forall n :: n in s.progress ==>
          && n in cat.stars
          && s.progress[n].required == Required(cat.stars[n])
          && s.progress[n].completed <= s.progress[n].required
          && s.progress[n].completed <= s.correctLines)
    && (forall id :: id in s.correctLines ==> exists n :: n in cat.stars && id in Required(cat.stars[n]))
    && NoDuplicates(s.found)
    && (forall n :: n in s.found ==> n in s.progress && s.progress[n].completed == s.progress[n].required)
    && (forall l :: l in s.drawn ==>
          && l.belongsTo == Joining(cat.names, cat.stars, l.star1, l.star2)
          && (l.state == Correct <==> |l.belongsTo| > 0)
          && (l.state == Correct ==> CreateLineId(l.star1, l.star2) in s.correctLines))
  }

  lemma SubsetSize(a: set<LineId>, b: set<LineId>)
    requires a <= b
    ensures |a| <= |b|
  {
    if a != b {
      var x :| x in b && x !in a;
      SubsetSize(a, b - {x});
    }
  }

  /** A subset as large as its superset is the whole superset. */
  lemma SubsetSameSize(a: set<LineId>, b: set<LineId>)
    requires a <= b && |a| == |b|
    ensures a == b
  {
    if a != b {
      var x :| x in b && x !in a;
      SubsetSize(a, b - {x});
    }
  }

  /** A completion check touches only the progress entry of `name` and may append `name` to the found list. */
  lemma CheckedFrame(cat: Catalogue, s: Sky, name: string)
    ensures Checked(cat, s, name).correctLines == s.correctLines
    ensures Checked(cat, s, name).drawn == s.drawn && Checked(cat, s, name).selected == s.selected
    ensures Checked(cat, s, name).progress.Keys == s.progress.Keys
    ensures Checked(cat, s, name).found == s.found || Checked(cat, s, name).found == s.found + [name]
  {
  }

  lemma {:induction false} CheckedAllFrame(cat: Catalogue, s: Sky, names: seq<string>)
    ensures CheckedAll(cat, s, names).correctLines == s.correctLines
    ensures CheckedAll(cat, s, names).drawn == s.drawn && CheckedAll(cat, s, names).selected == s.selected
    ensures CheckedAll(cat, s, names).progress.Keys == s.progress.Keys
    ensures |CheckedAll(cat, s, names).found| >= |s.found| && CheckedAll(cat, s, names).found[..|s.found|] == s.found
  {
    if |names| > 0 {
      var s0 := CheckedAll(cat, s, names[..|names| - 1]);
      CheckedAllFrame(cat, s, names[..|names| - 1]);
      CheckedFrame(cat, s0, names[|names| - 1]);
      assert s0.found[..|s.found|] == s.found;
      if CheckedAll(cat, s, names).found != s0.found {
        assert CheckedAll(cat, s, names).found[..|s.found|] == s0.found[..|s.found|];
      }
    }
  }

  /** Replacing a progress entry by one with the same required lines and more completed, drawn ones keeps the game valid. */
  lemma ProgressValid(cat: Catalogue, s: Sky, name: string, p: Progress)
    requires Valid(cat, s) && name in s.progress
    requires p.required == s.progress[name].required
    requires s.progress[name].completed <= p.completed <= p.required
    requires p.completed <= s.correctLines
    ensures Valid(cat, s.(progress := s.progress[name := p]))
  {
    var s' := s.(progress := s.progress[name := p]);
    forall n | n in s'.found
      ensures n in s'.progress && s'.progress[n].completed == s'.progress[n].required
    {
      if n == name {
        assert s.progress[name].completed == p.required;
      }
    }
  }

  /** Finding a constellation all of whose required lines are completed, and that is not found yet, keeps the game valid. */
  lemma FoundValid(cat: Catalogue, s: Sky, name: string)
    requires Valid(cat, s) && name in s.progress && name !in s.found
    requires s.progress[name].completed == s.progress[name].required
    ensures Valid(cat, s.(found := s.found + [name]))
  {
    var found := s.found + [name];
    forall i, j | 0 <= i < j < |found|
      ensures found[i] != found[j]
    {
      if j == |s.found| {
        assert found[i] == s.found[i] && s.found[i] in s.found;
      }
    }
  }

  /**
   * A completion check keeps the game valid: it adds only required, drawn
   * lines, and it finds a constellation only when all its required lines
   * are completed and it is not found already.
   */
  lemma CheckedValid(cat: Catalogue, s: Sky, name: string)
    requires Valid(cat, s)
    ensures Valid(cat, Checked(cat, s, name))
  {
    if name in s.progress && name in cat.stars {
      var p := s.progress[name];
      var completed := p.completed + Required(cat.stars[name]) * s.correctLines;
      var s' := s.(progress := s.progress[name := p.(completed := completed)]);
      ProgressValid(cat, s, name, p.(completed := completed));
      if |completed| == |p.required| && name !in s.found {
        SubsetSameSize(completed, p.required);
        FoundValid(cat, s', name);
      }
    }
  }

  lemma {:induction false} CheckedAllValid(cat: Catalogue, s: Sky, names: seq<string>)
    requires Valid(cat, s)
    ensures Valid(cat, CheckedAll(cat, s, names))
  {
    if |names| > 0 {
      CheckedAllValid(cat, s, names[..|names| - 1]);
      CheckedValid(cat, CheckedAll(cat, s, names[..|names| - 1]), names[|names| - 1]);
    }
  }

  /** Recording a validated line, and its id when it is correct, keeps the game valid. */
  lemma DrawnValid(cat: Catalogue, s: Sky, l: Line, lines: set<LineId>)
    requires Valid(cat, s)
    requires l.belongsTo == Joining(cat.names, cat.stars, l.star1, l.star2)
    requires l.state == Correct <==> |l.belongsTo| > 0
    requires lines == s.correctLines + (if l.state == Correct then {CreateLineId(l.star1, l.star2)} else {})
    ensures Valid(cat, s.(drawn := s.drawn + [l], correctLines := lines))
  {
    var s1 := s.(drawn := s.drawn + [l], correctLines := lines);
    if l.state == Correct {
      JoiningSpec(cat.names, cat.stars, l.star1, l.star2);
      var n :| n in cat.names && Linked(cat.stars[n], l.star1, l.star2);
      RequiredLinked(cat.stars[n], l.star1, l.star2);
    }
    forall m | m in s1.drawn
      ensures m.belongsTo == Joining(cat.names, cat.stars, m.star1, m.star2)
      ensures m.state == Correct <==> |m.belongsTo| > 0
      ensures m.state == Correct ==> CreateLineId(m.star1, m.star2) in s1.correctLines
    {
      if m != l {
        assert m in s.drawn;
      }
    }
  }

  /**
   * Drawing a line keeps the game valid. Its id joins `correctLines`
   * exactly when some constellation joins its stars: a wrong line is never
   * added.
   */
  lemma ValidatedValid(cat: Catalogue, s: Sky, a: int, b: int)
    requires Valid(cat, s)
    ensures Valid(cat, Validated(cat, s, a, b))
    ensures var linked := exists n :: n in cat.names && Linked(cat.stars[n], a, b);
      Validated(cat, s, a, b).correctLines == s.correctLines + (if linked then {CreateLineId(a, b)} else {})
  {
    var belongs := Joining(cat.names, cat.stars, a, b);
    JoiningSpec(cat.names, cat.stars, a, b);
    var id := CreateLineId(a, b);
    if |belongs| > 0 {
      var l := Line(a, b, Correct, belongs);
      DrawnValid(cat, s, l, s.correctLines + {id});
      var s1 := s.(drawn := s.drawn + [l], correctLines := s.correctLines + {id});
      CheckedAllValid(cat, s1, belongs);
      CheckedAllFrame(cat, s1, belongs);
    } else {
      DrawnValid(cat, s, Line(a, b, Wrong, []), s.correctLines);
    }
  }

  /** A click keeps the game valid. */
  lemma ClickedValid(cat: Catalogue, s: Sky, hr: int)
    requires Valid(cat, s)
    ensures Valid(cat, Clicked(cat, s, hr))
  {
    if !FullyCompleted(cat, s.found, hr) && s.selected.Some? && s.selected.value != hr {
      ValidatedValid(cat, s, s.selected.value, hr);
    }
  }

  /**
   * The click state machine: a fully completed star changes nothing; with
   * nothing selected the star becomes selected; a click on the selected star
   * deselects it; a click on another star records a line from the selected
   * star to it and leaves nothing selected.
   */
  lemma ClickedSpec(cat: Catalogue, s: Sky, hr: int)
    requires WellFormed(cat)
    ensures FullyCompleted(cat, s.found, hr) ==> Clicked(cat, s, hr) == s
    ensures !FullyCompleted(cat, s.found, hr) && s.selected.None? ==> Clicked(cat, s, hr) == s.(selected := Some(hr))
    ensures !FullyCompleted(cat, s.found, hr) && s.selected == Some(hr) ==> Clicked(cat, s, hr) == s.(selected := None)
    ensures !FullyCompleted(cat, s.found, hr) && s.selected.Some? && s.selected.value != hr ==>
      && Clicked(cat, s, hr).selected.None?
      && |Clicked(cat, s, hr).drawn| == |s.drawn| + 1
      && Clicked(cat, s, hr).drawn[|s.drawn|].star1 == s.selected.value
      && Clicked(cat, s, hr).drawn[|s.drawn|].star2 == hr
  {
    if !FullyCompleted(cat, s.found, hr) && s.selected.Some? && s.selected.value != hr {
      var a := s.selected.value;
      var belongs := Joining(cat.names, cat.stars, a, hr);
      if |belongs| > 0 {
        var s1 := s.(drawn := s.drawn + [Line(a, hr, Correct, belongs)], correctLines := s.correctLines + {CreateLineId(a, hr)});
        CheckedAllFrame(cat, s1, belongs);
      }
    }
  }

  /** Reset keeps the game valid, keeps every required set, and empties everything else. */
  lemma ResetValid(cat: Catalogue, s: Sky)
    requires Valid(cat, s)
    ensures Valid(cat, ResetSky(s))
    ensures ResetSky(s).progress.Keys == s.progress.Keys
    ensures forall n :: n in s.progress ==> ResetSky(s).progress[n] == Progress(s.progress[n].required, {})
    ensures ResetSky(s).correctLines == {} && ResetSky(s).found == [] && ResetSky(s).drawn == [] && ResetSky(s).selected == None
  {
  }

  /** Tracking from a game with nothing found gives a valid game. */
  lemma TrackedValid(cat: Catalogue, s: Sky)
    requires Valid(cat, s) && s.found == []
    ensures Valid(cat, s.(progress := Tracked(cat.names, cat.stars, s.progress)))
  {
    TrackedSpec(cat.names, cat.stars, s.progress);
  }

  /** A found constellation has every one of its lines among the correct lines. */
  lemma FoundMeansDrawn(cat: Catalogue, s: Sky, name: string)
    requires Valid(cat, s) && name in s.found
    ensures name in cat.stars && Required(cat.stars[name]) <= s.correctLines
  {
  }

  // ----- The game object -----

  class StarMapGame {
    const catalogue: Catalogue
    var constellationProgress: map<string, Progress>
    var correctLines: set<LineId>
    var foundConstellations: seq<string>
    var drawnLines: seq<Line>
    var selectedStar: Option<int>

    function Snapshot(): Sky
      reads this
    {
      Sky(constellationProgress, correctLines, foundConstellations, drawnLines, selectedStar)
    }

    /** The declarations at the top of the script, with the catalogue loaded. */
    constructor (cat: Catalogue)
      requires WellFormed(cat)
      ensures catalogue == cat
      ensures Snapshot() == Sky(map[], {}, [], [], None)
      ensures Valid(catalogue, Snapshot())
    {
      catalogue := cat;
      constellationProgress := map[];
      correctLines := {};
      foundConstellations := [];
      drawnLines := [];
      selectedStar := None;
    }

    /** `initConstellationTracking()`. */
    method InitConstellationTracking()
      requires WellFormed(catalogue)
      modifies this`constellationProgress
      ensures constellationProgress == Tracked(catalogue.names, catalogue.stars, old(constellationProgress))
      ensures Valid(catalogue, old(Snapshot())) && foundConstellations == [] ==> Valid(catalogue, Snapshot())
    {
      if Valid(catalogue, Snapshot()) && foundConstellations == [] {
        TrackedValid(catalogue, Snapshot());
      }
      var k := 0;
      while k < |catalogue.names|
        invariant k <= |catalogue.names|
        invariant constellationProgress == Tracked(catalogue.names[..k], catalogue.stars, old(constellationProgress))
      {
        var name := catalogue.names[k];
        var stars := catalogue.stars[name];
        var requiredLines := RequiredLines(stars);
        assert catalogue.names[..k + 1][..k] == catalogue.names[..k];
        constellationProgress := constellationProgress[name := Progress(requiredLines, {})];
        k := k + 1;
      }
      assert catalogue.names[..k] == catalogue.names;
    }

    /** The inner loop of `initConstellationTracking`. */
    static method RequiredLines(stars: seq<int>) returns (requiredLines: set<LineId>)
      ensures requiredLines == Required(stars)
    {
      requiredLines := {};
      var i := 0;
      while i < |stars| - 1
        invariant 0 <= i && (i == 0 || i < |stars|)
        invariant requiredLines == set j | 0 <= j < i :: LineAt(stars, j)
      {
        var lineId := CreateLineId(stars[i], stars[i + 1]);
        assert (set j | 0 <= j < i + 1 :: LineAt(stars, j)) == (set j | 0 <= j < i :: LineAt(stars, j)) + {LineAt(stars, i)};
        requiredLines := requiredLines + {lineId};
        i := i + 1;
      }
    }

    /** `handleStarClick(star)`, the star named by its HR number. */
    method HandleStarClick(hr: int)
      requires Valid(catalogue, Snapshot())
      modifies this
      ensures Snapshot() == Clicked(catalogue, old(Snapshot()), hr)
      ensures Valid(catalogue, Snapshot())
    {
      ClickedValid(catalogue, Snapshot(), hr);
      var done := IsStarFullyCompleted(hr);
      if done {
        return;
      }
      if selectedStar.None? {
        selectedStar := Some(hr);
      } else if selectedStar.value == hr {
        selectedStar := None;
      } else {
        AttemptDrawLine(selectedStar.value, hr);
        selectedStar := None;
      }
    }

    /** `isStarFullyCompleted(hr)`. */
    method IsStarFullyCompleted(hr: int) returns (done: bool)
      requires WellFormed(catalogue)
      ensures done == FullyCompleted(catalogue, foundConstellations, hr)
    {
      var names := catalogue.names;
      var belongsToConstellations := [];
      for k := 0 to |names|
        invariant belongsToConstellations == Containing(names[..k], catalogue.stars, hr)
      {
        assert names[..k + 1][..k] == names[..k];
        var stars := catalogue.stars[names[k]];
        if hr in stars {
          belongsToConstellations := belongsToConstellations + [names[k]];
        }
      }
      assert names[..|names|] == names;
      if |belongsToConstellations| == 0 {
        return false;
      }
      done := true;
      for k := 0 to |belongsToConstellations|
        invariant done <==> forall j :: 0 <= j < k ==> belongsToConstellations[j] in foundConstellations
      {
        if belongsToConstellations[k] !in foundConstellations {
          done := false;
        }
      }
    }

    /** `attemptDrawLine(star1, star2)`: `drawLine(star1, star2, false)` and its `validateLine`. */
    method AttemptDrawLine(star1: int, star2: int)
      requires Valid(catalogue, Snapshot())
      modifies this`constellationProgress, this`correctLines, this`foundConstellations, this`drawnLines
      ensures Snapshot() == Validated(catalogue, old(Snapshot()), star1, star2)
    {
      var belongs := ValidateLine(star1, star2);
      if |belongs| > 0 {
        drawnLines := drawnLines + [Line(star1, star2, Correct, belongs)];
        correctLines := correctLines + {CreateLineId(star1, star2)};
        ghost var start := Snapshot();
        for k := 0 to |belongs|
          invariant Snapshot() == CheckedAll(catalogue, start, belongs[..k])
        {
          assert belongs[..k + 1][..k] == belongs[..k];
          CheckConstellationCompletion(belongs[k]);
        }
        assert belongs[..|belongs|] == belongs;
      } else {
        drawnLines := drawnLines + [Line(star1, star2, Wrong, [])];
      }
    }

    /**
     * The matching loops of `validateLine`: for each constellation, the
     * first consecutive pair that is the line, in either direction, adds the
     * constellation and stops the inner loop.
     */
    method ValidateLine(star1Hr: int, star2Hr: int) returns (belongsToConstellations: seq<string>)
      requires WellFormed(catalogue)
      ensures belongsToConstellations == Joining(catalogue.names, catalogue.stars, star1Hr, star2Hr)
    {
      var names := catalogue.names;
      belongsToConstellations := [];
      for k := 0 to |names|
        invariant belongsToConstellations == Joining(names[..k], catalogue.stars, star1Hr, star2Hr)
      {
        assert names[..k + 1][..k] == names[..k];
        var stars := catalogue.stars[names[k]];
        var i := 0;
        var hit := false;
        while i < |stars| - 1
          invariant 0 <= i && (i == 0 || i < |stars|)
          invariant !hit
          invariant forall j :: 0 <= j < i ==> !((stars[j] == star1Hr && stars[j + 1] == star2Hr) || (stars[j] == star2Hr && stars[j + 1] == star1Hr))
        {
          var hr1 := stars[i];
          var hr2 := stars[i + 1];
          if (hr1 == star1Hr && hr2 == star2Hr) || (hr1 == star2Hr && hr2 == star1Hr) {
            hit := true;
            break;
          }
          i := i + 1;
        }
        assert hit <==> Linked(stars, star1Hr, star2Hr);
        if hit {
          belongsToConstellations := belongsToConstellations + [names[k]];
        }
      }
      assert names[..|names|] == names;
    }

    /** `checkConstellationCompletion(name)`, with `onConstellationComplete` when it is found. */
    method CheckConstellationCompletion(name: string)
      modifies this`constellationProgress, this`foundConstellations
      ensures Snapshot() == Checked(catalogue, old(Snapshot()), name)
    {
      if name !in constellationProgress || name !in catalogue.stars {
        return;
      }
      var progress := constellationProgress[name];
      var completed := CompletedLines(catalogue.stars[name], correctLines, progress.completed);
      constellationProgress := constellationProgress[name := progress.(completed := completed)];
      if |completed| == |progress.required| && name !in foundConstellations {
        OnConstellationComplete(name);
      }
    }

    /** The loop of `checkConstellationCompletion`: each consecutive line already drawn correctly joins `completed`. */
    static method CompletedLines(stars: seq<int>, lines: set<LineId>, before: set<LineId>) returns (completed: set<LineId>)
      ensures completed == before + Required(stars) * lines
    {
      completed := before;
      var i := 0;
      while i < |stars| - 1
        invariant 0 <= i && (i == 0 || i < |stars|)
        invariant completed == before + Reached(stars, lines, i)
      {
        var lineId := CreateLineId(stars[i], stars[i + 1]);
        if lineId in lines {
          completed := completed + {lineId};
        }
        ReachedNext(stars, lines, i);
        i := i + 1;
      }
      assert Reached(stars, lines, i) == Reached(stars, lines, |stars|);
      ReachedAll(stars, lines);
    }

    /** `onConstellationComplete(name)`: the bookkeeping part. */
    method OnConstellationComplete(name: string)
      modifies this`foundConstellations
      ensures foundConstellations == old(foundConstellations) + [name]
    {
      foundConstellations := foundConstellations + [name];
    }

    /** `resetGame()`. */
    method ResetGame()
      modifies this
      ensures Snapshot() == ResetSky(old(Snapshot()))
    {
      drawnLines := [];
      correctLines := {};
      foundConstellations := [];
      constellationProgress := map n | n in constellationProgress :: constellationProgress[n].(completed := {});
      selectedStar := None;
    }
  }
}
