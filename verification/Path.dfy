/** BPath, kits/storage/Path.cpp: when a path needs normalising, and how it comes apart into parent and leaf.  Strings
    are C strings, without zero characters.  What a normalisation through BEntry yields is a parameter. */
module Path {
  import opened Options

  const B_PATH_NAME_LENGTH := 4096

  datatype Status = Ok | BadValue | NameTooLong | EntryNotFound | NoInit | EntryError

  /** The first slash from `k` on, or the length. */
  function NextSlash(s: string, k: nat): (e: nat)
    requires k <= |s|
    ensures k <= e <= |s| && (e < |s| ==> s[e] == '/')
    ensures forall i | k <= i < e :: s[i] != '/'
    decreases |s| - k
  {
    if k == |s| || s[k] == '/' then k else NextSlash(s, k + 1)
  }

  /** The parts of the string from `k` on that slashes separate. */
  function Split(s: string, k: nat): seq<string>
    requires k <= |s|
    decreases |s| - k
  {
    var e := NextSlash(s, k);
    [s[k..e]] + if e < |s| then Split(s, e + 1) else []
  }

  predicate IsAbsolute(s: string) {
    s != "" && s[0] == '/'
  }

  /** The names in an absolute path; the root directory has none. */
  function Components(s: string): seq<string>
    requires IsAbsolute(s)
  {
    if s == "/" then [] else Split(s, 1)
  }

  predicate IsSpecial(name: string) {
    name == "" || name == "." || name == ".."
  }

  /** What names lead to from the root directory: an empty name and "." lead nowhere, and ".." leads back. */
  function Resolved(names: seq<string>): seq<string> {
    if names == [] then []
    else
      var front, last := Resolved(names[..|names| - 1]), names[|names| - 1];
      if last == "" || last == "." then front
      else if last == ".." then (if front == [] then [] else front[..|front| - 1])
      else front + [last]
  }

  lemma {:induction false} ResolvedIff(names: seq<string>)
    ensures |Resolved(names)| <= |names|
    ensures Resolved(names) == names <==> forall name | name in names :: !IsSpecial(name)
    ensures (exists name | name in names :: IsSpecial(name)) ==> |Resolved(names)| < |names|
  {
    if names != [] {
      var front, last := names[..|names| - 1], names[|names| - 1];
      ResolvedIff(front);
      assert names == front + [last];
      assert forall name | name in names :: name in front || name == last;
      assert last in names && forall name | name in front :: name in names;
      if IsSpecial(last) {
        assert |Resolved(names)| <= |Resolved(front)|;
      } else {
        assert Resolved(names) == Resolved(front) + [last];
      }
    }
  }

  /** An absolute path needs no normalising exactly if its names are what they lead to. */
  lemma {:induction false} CleanIsResolved(s: string)
    ensures Clean(s) <==> IsAbsolute(s) && Resolved(Components(s)) == Components(s)
  {
    if IsAbsolute(s) {
      ResolvedIff(Components(s));
    }
  }

  /** An absolute path that needs no normalising. */
  predicate Clean(s: string) {
    IsAbsolute(s) && forall name | name in Components(s) :: !IsSpecial(name)
  }

  /** None of the names from `k` on is special. */
  predicate NoneSpecial(s: string, k: nat)
    requires k <= |s|
    decreases |s| - k
  {
    var e := NextSlash(s, k);
    !IsSpecial(s[k..e]) && (e < |s| ==> NoneSpecial(s, e + 1))
  }

  lemma {:induction false} NoneSpecialIff(s: string, k: nat)
    requires k <= |s|
    ensures NoneSpecial(s, k) <==> forall name | name in Split(s, k) :: !IsSpecial(name)
    decreases |s| - k
  {
    var e := NextSlash(s, k);
    var first, rest := s[k..e], if e < |s| then Split(s, e + 1) else [];
    assert Split(s, k) == [first] + rest;
    assert NoneSpecial(s, k) <==> !IsSpecial(first) && (e < |s| ==> NoneSpecial(s, e + 1));
    hide Split, IsSpecial, NoneSpecial, NextSlash;
    if e < |s| {
      NoneSpecialIff(s, e + 1);
    }
    assert first in [first] + rest;
    assert forall name | name in rest :: name in [first] + rest;
    assert forall name | name in [first] + rest :: name == first || name in rest;
  }

  lemma {:induction false} CleanIff(s: string)
    ensures Clean(s) <==> IsAbsolute(s) && (s == "/" || NoneSpecial(s, 1))
  {
    if IsAbsolute(s) && s != "/" {
      NoneSpecialIff(s, 1);
    }
  }

  /** The next slash is known when the characters in front of it are none. */
  lemma {:induction false} NextSlashIs(s: string, k: nat, e: nat)
    requires k <= e <= |s| && (forall i | k <= i < e :: s[i] != '/') && (e < |s| ==> s[e] == '/')
    ensures NextSlash(s, k) == e
    ensures NoneSpecial(s, k) <==> !IsSpecial(s[k..e]) && (e < |s| ==> NoneSpecial(s, e + 1))
  {
  }

  // The scan

  datatype ParseState = NoMatch | InitialSlash | OneDot | TwoDots

  /** The state that stands for the beginning of a name. */
  function StateFor(begun: string): ParseState {
    if begun == "" then InitialSlash else if begun == "." then OneDot else if begun == ".." then TwoDots else NoMatch
  }

  lemma {:induction false} StateForLonger(begun: string, c: char)
    ensures StateFor(begun + [c]) ==
            match StateFor(begun)
            case InitialSlash => if c == '.' then OneDot else NoMatch
            case OneDot => if c == '.' then TwoDots else NoMatch
            case _ => NoMatch
    ensures IsSpecial(begun) <==> StateFor(begun) != NoMatch
  {
    var longer := begun + [c];
    assert |longer| == |begun| + 1 && longer[|begun|] == c;
    assert begun == longer[..|begun|];
    assert longer == "." ==> begun == "";
    assert longer == ".." ==> begun == ".";
  }

  /** The path has been scanned up to `i`; the name that starts at `c` has been begun, and none in front is special. */
  ghost predicate Scanned(path: string, c: nat, i: nat, state: ParseState) {
    && 1 <= c <= i <= |path| && path[c - 1] == '/' && state == StateFor(path[c..i])
    && (forall k | c <= k < i :: path[k] != '/')
    && (NoneSpecial(path, 1) <==> NoneSpecial(path, c))
  }

  /** A character within a name. */
  lemma {:induction false} ScanOn(path: string, c: nat, i: nat, state: ParseState)
    requires Scanned(path, c, i, state) && i < |path| && path[i] != '/'
    ensures
      var next := match state
                  case InitialSlash => if path[i] == '.' then OneDot else NoMatch
                  case OneDot => if path[i] == '.' then TwoDots else NoMatch
                  case _ => NoMatch;
      Scanned(path, c, i + 1, next)
  {
    assert path[c..i + 1] == path[c..i] + [path[i]];
    StateForLonger(path[c..i], path[i]);
    hide StateFor, NoneSpecial;
  }

  /** A slash behind a name. */
  lemma {:induction false} ScanSlash(path: string, c: nat, i: nat, state: ParseState)
    requires Scanned(path, c, i, state) && i < |path| && path[i] == '/'
    ensures if state == NoMatch then Scanned(path, i + 1, i + 1, InitialSlash) else !NoneSpecial(path, 1)
  {
    NextSlashIs(path, c, i);
    StateForLonger(path[c..i], '/');
    assert path[i + 1..i + 1] == "";
  }

  lemma {:induction false} ScanEnd(path: string, c: nat, state: ParseState)
    requires Scanned(path, c, |path|, state)
    ensures NoneSpecial(path, 1) <==> state == NoMatch
    ensures state == InitialSlash ==> path[|path| - 1] == '/'
  {
    NextSlashIs(path, c, |path|);
    StateForLonger(path[c..|path|], '/');
  }

  /** `_MustNormalize`: says that a path needs normalising exactly if it is relative or one of its names is empty, "."
      or "..".  An empty path is an error. */
  method MustNormalize(path: string) returns (must: bool, error: bool)
    ensures error <==> path == ""
    ensures must <==> path != "" && !Clean(path)
  {
    if path == "" {
      return false, true;
    }
    CleanIff(path);
    error := false;
    if path[0] != '/' {
      return true, error;
    } else if |path| == 1 {
      return false, error;
    } else if path[|path| - 1] == '/' {
      LastIsEmpty(path, 1);
      return true, error;
    }
    must := ScanNames(path);
  }

  /** The loop of `_MustNormalize` and the look at its last state. */
  method ScanNames(path: string) returns (special: bool)
    requires |path| > 1 && path[0] == '/' && path[|path| - 1] != '/'
    ensures special <==> !NoneSpecial(path, 1)
  {
    ScanStart(path);
    hide *;
    var state := NoMatch;
    ghost var c := 1;
    var i := 0;
    while i < |path|
      invariant i <= |path|
      invariant if i == 0 then state == NoMatch && c == 1 else Scanned(path, c, i, state)
    {
      if i > 0 {
        if path[i] == '/' {
          ScanSlash(path, c, i, state);
          c := i + 1;
        } else {
          ScanOn(path, c, i, state);
        }
      }
      match state {
        case NoMatch =>
          if path[i] == '/' {
            state := InitialSlash;
          }
        case InitialSlash =>
          if path[i] == '/' {
            return true;
          }
          if path[i] == '.' {
            state := OneDot;
          } else {
            state := NoMatch;
          }
        case OneDot =>
          if path[i] == '/' {
            return true;
          }
          if path[i] == '.' {
            state := TwoDots;
          } else {
            state := NoMatch;
          }
        case TwoDots =>
          if path[i] == '/' {
            return true;
          }
          state := NoMatch;
      }
      i := i + 1;
    }
    ScanEnd(path, c, state);
    return state == OneDot || state == TwoDots;
  }

  lemma {:induction false} ScanStart(path: string)
    requires |path| > 1 && path[0] == '/'
    ensures Scanned(path, 1, 1, InitialSlash)
  {
    assert path[1..1] == "";
  }

  /** A slash at the end leaves an empty last name. */
  lemma {:induction false} LastIsEmpty(s: string, k: nat)
    requires k < |s| && s[|s| - 1] == '/'
    ensures !NoneSpecial(s, k)
    decreases |s| - k
  {
    var e := NextSlash(s, k);
    assert e < |s|;
    if e + 1 < |s| {
      LastIsEmpty(s, e + 1);
    } else {
      assert s[|s|..|s|] == "";
    }
  }

  // Parent and leaf

  /** The last slash in front of `k`, or zero. */
  function LastSlash(s: string, k: nat): (l: nat)
    requires k < |s|
    ensures l <= k && (l > 0 ==> s[l] == '/')
    ensures forall i | l < i <= k :: s[i] != '/'
  {
    if k == 0 || s[k] == '/' then k else LastSlash(s, k - 1)
  }

  function ParentOf(s: string): string
    requires IsAbsolute(s)
  {
    var l := LastSlash(s, |s| - 1);
    if l == 0 then "/" else s[..l]
  }

  function LeafOf(s: string): string
    requires IsAbsolute(s)
  {
    s[LastSlash(s, |s| - 1) + 1..]
  }

  lemma {:induction false} SplitIs(s: string, k: nat, e: nat)
    requires k <= e <= |s| && (forall i | k <= i < e :: s[i] != '/') && (e < |s| ==> s[e] == '/')
    ensures NextSlash(s, k) == e
    ensures Split(s, k) == if e < |s| then [s[k..e]] + Split(s, e + 1) else [s[k..]]
  {
    NextSlashIs(s, k, e);
    if e == |s| {
      assert s[k..e] == s[k..] && [s[k..]] + [] == [s[k..]];
    }
  }

  function Join(names: seq<string>): string {
    if names == [] then "" else if |names| == 1 then names[0] else names[0] + "/" + Join(names[1..])
  }

  lemma {:induction false} JoinMore(first: string, rest: seq<string>)
    requires rest != []
    ensures Join([first] + rest) == first + "/" + Join(rest)
  {
    assert ([first] + rest)[1..] == rest;
  }

  lemma {:induction false} JoinOne(name: string)
    ensures Join([name]) == name
  {
  }

  lemma {:induction false} AroundSlash(s: string, k: nat, e: nat)
    requires k <= e < |s| && s[e] == '/'
    ensures s[k..] == s[k..e] + "/" + s[e + 1..]
  {
  }

  lemma {:induction false} JoinFront(whole: string, names: seq<string>, first: string, rest: seq<string>, last: string)
    requires names == [first] + rest && rest != [] && Join(rest) == last && whole == first + "/" + last
    ensures Join(names) == whole
  {
    JoinMore(first, rest);
  }

  /** The parts from `k` on, joined with slashes, are the string from there. */
  ghost predicate Joins(s: string, k: nat) {
    k <= |s| && Split(s, k) != [] && Join(Split(s, k)) == s[k..]
  }

  lemma {:induction false} JoinsBefore(s: string, k: nat, e: nat)
    requires k <= e < |s| && NextSlash(s, k) == e && Joins(s, e + 1)
    ensures Joins(s, k)
  {
    SplitIs(s, k, e);
    AroundSlash(s, k, e);
    hide Split, Join, NextSlash;
    JoinFront(s[k..], Split(s, k), s[k..e], Split(s, e + 1), s[e + 1..]);
  }

  lemma {:induction false} JoinsLast(s: string, k: nat)
    requires k <= |s| && NextSlash(s, k) == |s|
    ensures Joins(s, k)
  {
    SplitIs(s, k, |s|);
  }

  /** Joining undoes splitting ... */
  lemma {:induction false} SplitJoins(s: string, k: nat)
    requires k <= |s|
    ensures Joins(s, k)
    decreases |s| - k
  {
    hide Split, Join, Joins, NextSlash;
    var e := NextSlash(s, k);
    if e < |s| {
      SplitJoins(s, e + 1);
      JoinsBefore(s, k, e);
    } else {
      JoinsLast(s, k);
    }
  }

  /** ... and the parts have no slashes. */
  lemma {:induction false} SplitHasNoSlash(s: string, k: nat)
    requires k <= |s|
    ensures forall name | name in Split(s, k) :: '/' !in name
    decreases |s| - k
  {
    var e := NextSlash(s, k);
    if e < |s| {
      SplitHasNoSlash(s, e + 1);
    }
  }

  /** Splitting at the last slash. */
  lemma {:induction false} SplitAtLast(s: string, k: nat, l: nat)
    requires k <= l < |s| && s[l] == '/' && forall i | l < i < |s| :: s[i] != '/'
    ensures Split(s, k) == Split(s[..l], k) + [s[l + 1..]]
    decreases l - k
  {
    hide Split;
    var e, front, leaf := NextSlash(s, k), s[..l], s[l + 1..];
    if e < l {
      SplitIs(s, k, e);
      SplitIs(front, k, e);
      SplitAtLast(s, e + 1, l);
      assert front[k..e] == s[k..e];
      Joined(s[k..e], Split(front, e + 1), leaf, Split(s, e + 1));
    } else {
      SplitIs(s, k, l);
      SplitIs(front, k, l);
      SplitIs(s, l + 1, |s|);
      assert front[k..] == s[k..l];
    }
  }

  lemma {:induction false} Joined(first: string, some: seq<string>, last: string, rest: seq<string>)
    requires rest == some + [last]
    ensures [first] + rest == [first] + some + [last]
  {
  }

  lemma {:induction false} OnlyLeaf(s: string)
    requires |s| > 1 && forall i | 0 < i < |s| :: s[i] != '/'
    ensures Split(s, 1) == [] + [s[1..]]
  {
    SplitIs(s, 1, |s|);
    assert [] + [s[1..]] == [s[1..]];
  }

  lemma {:induction false} SomeName(s: string)
    requires IsAbsolute(s) && s != "/"
    ensures |s| > 1 && s[LastSlash(s, |s| - 1)] == '/' && Components(s) == Split(s, 1)
  {
    assert |s| == 1 ==> s == "/";
  }

  lemma {:induction false} LeafIsName(s: string, l: nat)
    requires IsAbsolute(s) && s != "/" && l == LastSlash(s, |s| - 1)
    ensures Components(s) == (if l == 0 then [] else Split(s[..l], 1)) + [s[l + 1..]]
  {
    SomeName(s);
    hide *;
    if l == 0 {
      OnlyLeaf(s);
    } else {
      SplitAtLast(s, 1, l);
    }
  }

  /** The parent has all names of a path but the last, which is the leaf; both need no normalising either, and together
      they are the path. */
  lemma {:induction false} ParentAndLeaf(s: string)
    requires Clean(s) && s != "/"
    ensures Clean(ParentOf(s)) && |ParentOf(s)| < |s|
    ensures Components(s) == Components(ParentOf(s)) + [LeafOf(s)]
    ensures s == if ParentOf(s) == "/" then "/" + LeafOf(s) else ParentOf(s) + "/" + LeafOf(s)
    ensures LeafOf(s) != "" && LeafOf(s)[0] != '/'
    ensures ParentOf(s)[|ParentOf(s)| - 1] == '/' <==> ParentOf(s) == "/"
  {
    var l := LastSlash(s, |s| - 1);
    LeafIsName(s, l);
    LastNameIsPlain(s, l);
    SlashBetween(s, l);
    if l > 0 {
      ParentIsClean(s, l);
    }
  }

  lemma {:induction false} LastNameIsPlain(s: string, l: nat)
    requires Clean(s) && l < |s| && Components(s) == (if l == 0 then [] else Split(s[..l], 1)) + [s[l + 1..]]
    ensures s[l + 1..] != "" && !IsSpecial(s[l + 1..])
  {
    assert Components(s)[|Components(s)| - 1] == s[l + 1..];
    assert s[l + 1..] in Components(s);
  }

  lemma {:induction false} SlashBetween(s: string, l: nat)
    requires l < |s| && s[l] == '/'
    ensures s == s[..l] + "/" + s[l + 1..]
    ensures l == 0 ==> s == "/" + s[1..]
  {
  }

  lemma {:induction false} ParentIsClean(s: string, l: nat)
    requires Clean(s) && 0 < l < |s| && s[l] == '/' && Components(s) == Split(s[..l], 1) + [s[l + 1..]]
    ensures l > 1 && Clean(s[..l]) && s[l - 1] != '/'
  {
    var parent := s[..l];
    assert forall name | name in Split(parent, 1) :: name in Components(s);
    NoneSpecialIff(parent, 1);
    CleanIff(parent);
    var e := NextSlash(parent, 1);
    SplitIs(parent, 1, e);
    assert parent[1..e] in Split(parent, 1);
    assert !IsSpecial(parent[1..e]) && l > 1;
    hide Split, NextSlash, Components;
    if l > 1 && s[l - 1] == '/' {
      LastIsEmpty(parent, 1);
    }
  }

  /** A path that needs no normalising is the only one with its names. */
  lemma {:induction false} NamesDeterminePath(s: string, t: string)
    requires Clean(s) && Clean(t) && Components(s) == Components(t)
    ensures s == t
    decreases |s|
  {
    if s != "/" {
      ParentAndLeaf(s);
      assert t != "/";
      ParentAndLeaf(t);
      var names := Components(s);
      assert Components(ParentOf(s)) == names[..|names| - 1] == Components(ParentOf(t));
      assert LeafOf(s) == names[|names| - 1] == LeafOf(t);
      NamesDeterminePath(ParentOf(s), ParentOf(t));
    }
  }

  // Setting a path

  /** `path`, a slash if it needs one, and `leaf`. */
  function Combined(path: string, leaf: Option<string>): string {
    match leaf
    case None => path
    case Some(l) => path + (if path != "" && path[|path| - 1] != '/' then "/" else "") + l
  }

  /** What SetTo does with its arguments: it fails, has BEntry normalise the path, or takes it as it is. */
  datatype Route = Fails(error: Status) | ByEntry | Direct(name: string)

  function RouteOf(path: Option<string>, leaf: Option<string>, normalize: bool): Route {
    if path == None || (leaf.Some? && IsAbsolute(leaf.value)) then Fails(BadValue)
    else
      var whole := Combined(path.value, leaf);
      if |path.value| >= B_PATH_NAME_LENGTH || |whole| >= B_PATH_NAME_LENGTH then Fails(NameTooLong)
      else if normalize || !IsAbsolute(path.value) || !Clean(whole) then ByEntry
      else Direct(whole)
  }

  /** Parent and leaf give the path back, without a detour through BEntry. */
  lemma {:induction false} ParentAndLeafRoundTrip(s: string)
    requires Clean(s) && s != "/" && |s| < B_PATH_NAME_LENGTH
    ensures RouteOf(Some(ParentOf(s)), None, false) == Direct(ParentOf(s))
    ensures RouteOf(Some(ParentOf(s)), Some(LeafOf(s)), false) == Direct(s)
  {
    ParentAndLeaf(s);
    CombinedWithLeaf(ParentOf(s), LeafOf(s));
    hide ParentOf, LeafOf, Clean, Components, Combined;
  }

  lemma {:induction false} CombinedWithLeaf(parent: string, leaf: string)
    requires parent != "" && (parent[|parent| - 1] == '/' <==> parent == "/")
    ensures Combined(parent, None) == parent
    ensures Combined(parent, Some(leaf)) == if parent == "/" then "/" + leaf else parent + "/" + leaf
  {
    assert parent + "" == parent;
  }

  class BPath {
    var name: Option<string>
    var status: Status

    /** A path that was set successfully is absolute and needs no normalising. */
    ghost predicate Valid()
      reads this
    {
      if status == Ok then name.Some? && Clean(name.value) && |name.value| < B_PATH_NAME_LENGTH else name == None
    }

    constructor ()
      ensures Valid() && status == NoInit
    {
      name, status := None, NoInit;
    }

    method Unset()
      modifies this
      ensures Valid() && name == None && status == NoInit
    {
      name, status := None, NoInit;
    }

    /** `resolved` is what BEntry makes of the combined path: a normalised path, or nothing if it fails. */
    method SetTo(path: Option<string>, leaf: Option<string>, normalize: bool, resolved: Option<string>)
        returns (error: Status)
      requires resolved.Some? ==> Clean(resolved.value) && |resolved.value| < B_PATH_NAME_LENGTH
      modifies this
      ensures Valid() && status == error
      ensures match RouteOf(path, leaf, normalize)
              case Fails(e) => error == e
              case ByEntry => if resolved.Some? then error == Ok && name == resolved else error == EntryError
              case Direct(whole) => error == Ok && name == Some(whole)
      ensures normalize && error == Ok ==> name == resolved
      ensures error == Ok && name != resolved ==> name == Some(Combined(path.value, leaf)) && Clean(name.value)
      ensures !normalize && path.Some? && leaf == None && Clean(path.value) && |path.value| < B_PATH_NAME_LENGTH ==>
                error == Ok && name == path
    {
      error := if path.Some? then Ok else BadValue;
      if error == Ok && leaf.Some? && IsAbsolute(leaf.value) {
        error := BadValue;
      }
      if error == Ok {
        var mustNormalize := normalize || !IsAbsolute(path.value);
        var newPath;
        error, newPath := Combine(path.value, leaf);
        if error == Ok && !mustNormalize {
          var empty;
          mustNormalize, empty := MustNormalize(newPath);
          if empty {
            error := BadValue;
          }
        }
        if error == Ok {
          if mustNormalize {
            error := if resolved.Some? then Ok else EntryError;
            if error == Ok {
              name, status := resolved, Ok;
              return;
            }
          } else {
            name := Some(newPath);
          }
        }
      }
      if error != Ok {
        Unset();
      }
      status := error;
    }

    /** The part of SetTo that builds the new path in a buffer of fixed size. */
    static method Combine(path: string, leaf: Option<string>) returns (error: Status, newPath: string)
      ensures error == if |path| >= B_PATH_NAME_LENGTH || |Combined(path, leaf)| >= B_PATH_NAME_LENGTH
                       then NameTooLong else Ok
      ensures error == Ok ==> newPath == Combined(path, leaf)
      ensures IsAbsolute(path) ==> Combined(path, leaf) != ""
    {
      error, newPath := Ok, path;
      var pathLen := |path|;
      if pathLen >= B_PATH_NAME_LENGTH {
        error := NameTooLong;
      }
      if error == Ok && leaf.Some? {
        var needsSeparator := pathLen > 0 && path[pathLen - 1] != '/';
        var wholeLen := pathLen + (if needsSeparator then 1 else 0) + |leaf.value|;
        if wholeLen >= B_PATH_NAME_LENGTH {
          error := NameTooLong;
        }
        if error == Ok {
          if needsSeparator {
            newPath := newPath + "/";
          }
          newPath := newPath + leaf.value;
        }
        assert path + "" == path;
      }
    }

    /** The last name of the path; the root directory's is empty. */
    method Leaf() returns (leaf: Option<string>)
      requires Valid()
      ensures leaf == if status == Ok then Some(LeafOf(name.value)) else None
    {
      if status != Ok {
        return None;
      }
      var fName := name.value;
      var result := |fName|;
      // The terminator is no slash.
      while (result == |fName| || fName[result] != '/') && result > 0
        invariant 0 <= result <= |fName|
        invariant result < |fName| ==> LastSlash(fName, |fName| - 1) == LastSlash(fName, result)
      {
        result := result - 1;
      }
      result := result + 1;
      return Some(fName[result..]);
    }

    /** Sets `path` to the parent directory. */
    method GetParent(path: BPath?) returns (error: Status)
      requires Valid()
      modifies if path == null then {} else {path}
      ensures path == null ==> error == BadValue
      ensures path != null && old(status) != Ok ==> error == old(status)
      ensures path != null && old(status) == Ok && old(name) == Some("/") ==> error == EntryNotFound
      ensures error != Ok ==> path == null || (path.name == old(path.name) && path.status == old(path.status))
      ensures path != null && old(status) == Ok && old(name) != Some("/") ==>
                error == Ok && path.Valid() && path.status == Ok && path.name == Some(ParentOf(old(name.value)))
    {
      if path == null {
        return BadValue;
      }
      error := status;
      if error != Ok {
        return;
      }
      var fName := name.value;
      var length := |fName|;
      if length == 1 {
        assert fName == "/";
        return EntryNotFound;
      }
      length := length - 1;
      while fName[length] != '/' && length > 0
        invariant 0 <= length < |fName|
        invariant LastSlash(fName, |fName| - 1) == LastSlash(fName, length)
        decreases length
      {
        length := length - 1;
      }
      if length == 0 {
        length := length + 1;
      }
      assert fName[..1] == "/";
      assert fName[..length] == ParentOf(fName);
      ParentAndLeafRoundTrip(fName);
      hide ParentOf, Clean, RouteOf, LastSlash;
      error := path.SetTo(Some(fName[..length]), None, false, None);
    }
  }

  /** Taking a path apart and putting it together again on objects. */
  method TakeApartAndJoin(path: BPath, parent: BPath, again: BPath) returns (error: Status)
    requires path.Valid() && path.status == Ok && path.name != Some("/")
    modifies parent, again
    ensures error == Ok && again.Valid() && again.status == Ok && again.name == old(path.name)
  {
    ghost var name := path.name.value;
    ParentAndLeafRoundTrip(name);
    hide ParentOf, LeafOf, RouteOf, Clean;
    var leaf := path.Leaf();
    error := path.GetParent(parent);
    error := again.SetTo(parent.name, leaf, false, None);
  }
}
