/**
 Which hosts a sign-in may be typed into, and the table of live frames it is looked up in
 (browser-lane-app/Sources/BrowserLaneApp: BrowserLaneLoginRunner.swift, hostIsAllowed;
 BrowserViewController.swift, loginFrames).
 */
module LoginHosts {
  import opened Text

  // ---- domains

  predicate EndsWith(s: string, t: string) {
    |t| <= |s| && s[|s| - |t|..] == t
  }

  predicate MatchesDomain(host: string, domain: string) {
    domain != "" && (host == domain || EndsWith(host, "." + domain))
  }

  predicate HostIsAllowed(host: string, allowed: seq<string>) {
    exists i :: 0 <= i < |allowed| && MatchesDomain(Lower(host), Lower(allowed[i]))
  }

  /** The parts of a name between its dots. */
  function Labels(name: string): seq<string> {
    SplitOn(name, '.')
  }

  ghost predicate IsSuffix(a: seq<string>, b: seq<string>) {
    |a| <= |b| && b[|b| - |a|..] == a
  }

  lemma {:induction false} DottedEnd(host: string, domain: string) returns (front: string)
    requires EndsWith(host, "." + domain)
    ensures host == front + ['.'] + domain
  {
    front := host[..|host| - |domain| - 1];
  }

  lemma {:induction false} EndIsSuffix(host: string, domain: string)
    requires EndsWith(host, "." + domain)
    ensures IsSuffix(Labels(domain), Labels(host))
  {
    var front := DottedEnd(host, domain);
    SplitOnConcat(front, domain, '.');
  }

  lemma {:induction false} DottedEndsWith(front: string, domain: string)
    ensures EndsWith(front + ['.'] + domain, "." + domain)
  {
  }

  lemma {:induction false} SuffixIsEnd(host: string, domain: string)
    requires IsSuffix(Labels(domain), Labels(host))
    ensures host == domain || EndsWith(host, "." + domain)
  {
    var ls, ds := Labels(host), Labels(domain);
    var front := ls[..|ls| - |ds|];
    assert ls == front + ds;
    JoinSplitOn(host, '.');
    JoinSplitOn(domain, '.');
    if front != [] {
      JoinAppend(front, ds, '.');
      DottedEndsWith(Join(front, '.'), domain);
    } else {
      assert ls == ds;
    }
  }

  /** The string test compares whole labels: a name that merely ends in the same letters does not pass. */
  lemma {:induction false} DomainIsLabelSuffix(host: string, domain: string)
    ensures MatchesDomain(host, domain) <==> domain != "" && IsSuffix(Labels(domain), Labels(host))
  {
    if EndsWith(host, "." + domain) {
      EndIsSuffix(host, domain);
    }
    if IsSuffix(Labels(domain), Labels(host)) {
      SuffixIsEnd(host, domain);
    }
  }

  /**
   A host is allowed exactly when, letter case aside, the labels of some non-empty allowed
   domain are the last labels of the host.
   */
  lemma {:induction false} HostAllowedByLabels(host: string, allowed: seq<string>)
    ensures HostIsAllowed(host, allowed)
       <==> exists i :: 0 <= i < |allowed| && allowed[i] != ""
                        && IsSuffix(Labels(Lower(allowed[i])), Labels(Lower(host)))
  {
    forall i | 0 <= i < |allowed|
      ensures MatchesDomain(Lower(host), Lower(allowed[i]))
         <==> allowed[i] != "" && IsSuffix(Labels(Lower(allowed[i])), Labels(Lower(host)))
    {
      DomainIsLabelSuffix(Lower(host), Lower(allowed[i]));
    }
  }

  // ---- the frame table

  /** A live frame: its security-origin host, and whether it is the main frame. */
  datatype Frame = Frame(id: nat, host: string, isMain: bool)

  predicate SameSlot(a: Frame, b: Frame) {
    a.host == b.host && a.isMain == b.isMain
  }

  function Without(frames: seq<Frame>, f: Frame): (r: seq<Frame>)
    ensures forall g :: g in r <==> g in frames && !SameSlot(g, f)
    ensures |r| <= |frames|
  {
    if frames == [] then []
    else (if SameSlot(frames[0], f) then [] else [frames[0]]) + Without(frames[1..], f)
  }

  function Announced(frames: seq<Frame>, f: Frame): seq<Frame> {
    if f.isMain then [f] + Without(frames, f) else Without(frames, f) + [f]
  }

  /** One frame per origin and kind, and no child frame before a main one. */
  ghost predicate Orderly(frames: seq<Frame>) {
    forall i, j :: 0 <= i < j < |frames| ==> !SameSlot(frames[i], frames[j]) && (frames[j].isMain ==> frames[i].isMain)
  }

  lemma {:induction false} WithoutOrderly(frames: seq<Frame>, f: Frame)
    requires Orderly(frames)
    ensures Orderly(Without(frames, f))
  {
    if frames != [] {
      WithoutOrderly(frames[1..], f);
      var r := Without(frames[1..], f);
      forall j | 0 <= j < |r| ensures !SameSlot(frames[0], r[j]) && (r[j].isMain ==> frames[0].isMain) {
        assert r[j] in frames[1..];
      }
    }
  }

  /** a is b with some of its frames left out. */
  predicate IsPartOf(a: seq<Frame>, b: seq<Frame>) {
    a == [] || (b != [] && ((a[0] == b[0] && IsPartOf(a[1..], b[1..])) || IsPartOf(a, b[1..])))
  }

  /** The other frames stay in the order they were in. */
  lemma {:induction false} OthersStayInOrder(frames: seq<Frame>, f: Frame)
    ensures IsPartOf(Without(frames, f), frames)
  {
    if frames != [] {
      OthersStayInOrder(frames[1..], f);
      var rest := Without(frames[1..], f);
      var kept := Without(frames, f);
      if SameSlot(frames[0], f) {
        assert kept == [] + rest == rest;
      } else {
        assert kept == [frames[0]] + rest;
        assert kept[0] == frames[0] && kept[1..] == rest;
      }
    }
  }

  lemma {:induction false} SlotsAre(a: Frame, b: Frame)
    ensures SameSlot(a, b) <==> a.host == b.host && (a.isMain <==> b.isMain)
  {
  }

  /** The table keeps its order through any announcement, and the frame announced last is in it. */
  lemma {:induction false} AnnouncedOrderly(frames: seq<Frame>, f: Frame)
    requires Orderly(frames)
    ensures Orderly(Announced(frames, f))
    ensures forall g :: g in Announced(frames, f) <==> g == f || (g in frames && !SameSlot(g, f))
    ensures f.isMain ==> Announced(frames, f)[0] == f
    ensures !f.isMain ==> Announced(frames, f)[|Announced(frames, f)| - 1] == f
  {
    WithoutOrderly(frames, f);
    var r := Without(frames, f);
    assert forall j :: 0 <= j < |r| ==> r[j] in r;
  }

  class FrameTable {
    var loginFrames: seq<Frame>

    constructor ()
      ensures loginFrames == [] && Orderly(loginFrames)
    {
      loginFrames := [];
    }

    /** The page's probe reports a frame. */
    method DidReceive(f: Frame)
      requires Orderly(loginFrames)
      modifies this
      ensures loginFrames == Announced(old(loginFrames), f)
      ensures Orderly(loginFrames)
    {
      AnnouncedOrderly(loginFrames, f);
      loginFrames := Without(loginFrames, f);
      if f.isMain {
        loginFrames := [f] + loginFrames;
      } else {
        loginFrames := loginFrames + [f];
      }
    }

    /** A top-level navigation forgets every frame, once the view has an address. */
    method DidStartNavigation(isMainView: bool, hasUrl: bool)
      requires Orderly(loginFrames)
      modifies this
      ensures loginFrames == if isMainView && hasUrl then [] else old(loginFrames)
      ensures Orderly(loginFrames)
    {
      if isMainView && hasUrl {
        loginFrames := [];
      }
    }
  }
}
