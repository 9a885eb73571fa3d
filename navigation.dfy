/** Turn-by-turn guidance along the route: a cursor into the waypoint list, the prompt
    naming the waypoint to walk to and the bearing to face there, the emphasis of the
    map markers, and the "next location" button that the user presses on arrival. */
module Navigation {
  import opened Route

  /** Marker opacity of the current waypoint, and of every marker once the route is complete. */
  const FULL: real := 1.0
  /** Marker opacity of every waypoint other than the current one. */
  const DIMMED: real := 0.6

  /** What the navigation prompt shows: nothing yet, "Navigate to Point p" with the
      bearing and file name of that waypoint, or "Route complete!". */
  datatype Prompt = Blank | NavigateTo(point: nat, direction: Direction, fileName: string) | RouteComplete

  /** The cursor's abstract state. */
  datatype NavState = Idle | Navigating(index: nat) | Complete

  /** The prompt for waypoint i: points are numbered from 1 to the route's length,
      and the point shown names the waypoint whose bearing and file name are shown. */
  function PromptFor(route: seq<Photo>, i: nat): (r: Prompt)
    requires i < |route|
    ensures r.NavigateTo? && 1 <= r.point <= |route| && r.point - 1 == i
    ensures r.direction == route[r.point - 1].direction && r.fileName == route[r.point - 1].fileName
  {
    NavigateTo(i + 1, route[i].direction, route[i].fileName)
  }

  /** The cursor points at one of the n waypoints whenever it points at all. */
  predicate InRange(s: NavState, n: nat) {
    s.Navigating? ==> s.index < n
  }

  /** Pressing "start navigation" on a route of n waypoints: nothing happens on an
      empty route, otherwise guidance begins at the first waypoint. */
  function Start(s: NavState, n: nat): (r: NavState)
    ensures n == 0 ==> r == s
    ensures n > 0 ==> r.Navigating? && r.index == 0
    ensures InRange(s, n) ==> InRange(r, n)
  {
    if n == 0 then s else Navigating(0)
  }

  /** Pressing "next location" on a route of n waypoints. The button only shows while
      navigating, so the other states are left as they are. */
  function Arrive(s: NavState, n: nat): (r: NavState)
    ensures !s.Navigating? ==> r == s
    ensures s.Navigating? ==> (r.Complete? <==> s.index + 1 >= n)
    ensures s.Navigating? && r.Navigating? ==> r.index == s.index + 1
    ensures InRange(s, n) ==> InRange(r, n)
  {
    match s
    case Navigating(i) => if i + 1 < n then Navigating(i + 1) else Complete
    case _ => s
  }

  /** k presses of "next location". */
  function ArriveTimes(s: NavState, n: nat, k: nat): (r: NavState) {
    if k == 0 then s else Arrive(ArriveTimes(s, n, k - 1), n)
  }

  /** On a route of n > 0 waypoints, the k-th press after starting shows waypoint k
      while k < n, and it is exactly the n-th press that completes the route. */
  lemma {:induction false} ArrivalsFromStart(s: NavState, n: nat, k: nat)
    requires 0 < n && k <= n
    ensures ArriveTimes(Start(s, n), n, k) == if k < n then Navigating(k) else Complete
  {
    if k > 0 {
      ArrivalsFromStart(s, n, k - 1);
    }
  }

  /** Marker opacities while the cursor is on waypoint current: the current marker
      fully opaque, every other one dimmed. */
  function Emphasis(n: nat, current: nat): (r: seq<real>)
    ensures |r| == n
    ensures forall i :: 0 <= i < n ==> (r[i] == FULL <==> i == current)
    ensures forall i :: 0 <= i < n ==> (r[i] == DIMMED <==> i != current)
  {
    seq(n, i => if i == current then FULL else DIMMED)
  }

  /** Marker opacities once the route is complete. */
  function AllFull(n: nat): (r: seq<real>)
    ensures |r| == n
    ensures forall i :: 0 <= i < n ==> r[i] == FULL
  {
    seq(n, i => FULL)
  }

  /** How many markers are fully opaque. */
  function CountFull(s: seq<real>): (k: nat)
    decreases |s|
  {
    if s == [] then 0
    else CountFull(s[..|s| - 1]) + (if s[|s| - 1] == FULL then 1 else 0)
  }

  /** While navigating, exactly one marker is fully opaque, and it is the current waypoint's. */
  lemma {:induction false} EmphasisHighlightsOne(n: nat, current: nat)
    requires current < n
    ensures forall i :: 0 <= i < n ==> (Emphasis(n, current)[i] == FULL <==> i == current)
    ensures CountFull(Emphasis(n, current)) == 1
  {
    CountBelow(n, current, n);
    assert Emphasis(n, current)[..n] == Emphasis(n, current);
  }

  /** Among the first m markers, the current one is fully opaque when it is among them. */
  lemma {:induction false} CountBelow(n: nat, current: nat, m: nat)
    requires m <= n
    ensures CountFull(Emphasis(n, current)[..m]) == if current < m then 1 else 0
  {
    var e := Emphasis(n, current);
    if m > 0 {
      CountBelow(n, current, m - 1);
      assert e[..m][..m - 1] == e[..m - 1];
    }
  }

  class Navigator {
    /** The waypoints being navigated, in route order. */
    var route: seq<Photo>
    /** navigationIndex: the waypoint the user is walking to. */
    var index: nat
    /** The opacity of each route marker, one per waypoint. */
    var markers: array<real>
    var prompt: Prompt
    /** Whether the "next location" button is showing. */
    var nextVisible: bool

    /** The cursor, read off the prompt. */
    ghost function State(): (s: NavState)
      reads this
    {
      match prompt
      case Blank => Idle
      case NavigateTo(_, _, _) => Navigating(index)
      case RouteComplete => Complete
    }

    /** Cursor, prompt, button and markers agree: the button shows exactly while
        navigating; while navigating the prompt names the current waypoint and only
        its marker is emphasised; on completion the cursor is past the last waypoint
        and every marker is fully opaque. */
    ghost predicate Valid()
      reads this, markers
    {
      && markers.Length == |route|
      && index <= |route|
      && (nextVisible <==> prompt.NavigateTo?)
      && (prompt.Blank? ==> index == 0)
      && (prompt.NavigateTo? ==>
            index < |route| && prompt == PromptFor(route, index) && markers[..] == Emphasis(|route|, index))
      && (prompt.RouteComplete? ==> index == |route| && markers[..] == AllFull(|route|))
    }

    constructor ()
      ensures Valid() && State() == Idle && route == [] && index == 0 && !nextVisible
    {
      route := [];
      index := 0;
      markers := new real[0];
      prompt := Blank;
      nextVisible := false;
    }

    /** Show waypoint `index`: emphasise its marker, dim the others, and name it in the prompt. */
    method UpdateNavigationPrompt()
      requires index < |route| && markers.Length == |route|
      modifies this`prompt, markers
      ensures markers[..] == Emphasis(|route|, index)
      ensures prompt == PromptFor(route, index)
    {
      for i := 0 to markers.Length
        invariant forall j :: 0 <= j < i ==> markers[j] == (if j == index then FULL else DIMMED)
      {
        markers[i] := if i == index then FULL else DIMMED;
      }
      prompt := PromptFor(route, index);
    }

    /** startNavigating: the cursor goes to the first waypoint and the button appears. */
    method StartNavigating()
      requires 0 < |route| && markers.Length == |route|
      modifies this`index, this`prompt, this`nextVisible, markers
      ensures Valid()
      ensures index == 0 && nextVisible && prompt == PromptFor(route, 0)
    {
      index := 0;
      UpdateNavigationPrompt();
      nextVisible := true;
    }

    /** The "start navigation" button: an empty route changes nothing; otherwise one
        fresh marker per waypoint is drawn and guidance starts at waypoint 0. */
    method StartNavigation(photos: seq<Photo>)
      requires Valid()
      modifies this
      ensures Valid()
      ensures State() == Start(old(State()), |photos|)
      ensures |photos| == 0 ==>
        && route == old(route) && index == old(index) && prompt == old(prompt)
        && nextVisible == old(nextVisible) && markers == old(markers)
      ensures |photos| > 0 ==>
        && route == photos && index == 0 && fresh(markers)
        && prompt == PromptFor(photos, 0) && nextVisible
        && markers[..] == Emphasis(|photos|, 0)
    {
      if |photos| == 0 {
        return;
      }
      route := photos;
      markers := new real[|photos|](_ => FULL);
      StartNavigating();
    }

    /** The "next location" button: the cursor moves on by one; past the last
        waypoint the route is complete, the button hides and every marker is fully
        opaque again. */
    method NextLocation()
      requires Valid() && nextVisible
      modifies this`index, this`prompt, this`nextVisible, markers
      ensures Valid()
      ensures index == old(index) + 1
      ensures State() == Arrive(old(State()), |route|)
      ensures index < |route| ==> prompt == PromptFor(route, index) && nextVisible
      ensures index == |route| ==> prompt == RouteComplete && !nextVisible
    {
      index := index + 1;
      if index < |route| {
        UpdateNavigationPrompt();
      } else {
        prompt := RouteComplete;
        nextVisible := false;
        for i := 0 to markers.Length
          modifies markers
          invariant forall j :: 0 <= j < i ==> markers[j] == FULL
        {
          markers[i] := FULL;
        }
        assert markers[..] == AllFull(|route|);
      }
    }
  }
}
