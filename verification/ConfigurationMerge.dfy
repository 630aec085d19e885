/** `merge_configuration` against the merge patch of section 2 of RFC 7396. */
module ConfigurationMerge {
  import opened Outcomes
  import opened Enumeration

  datatype Json =
    | Null
    | Boolean(value: bool)
    | Number(literal: string)
    | Text(text: string)
    | Array(items: seq<Json>)
    | Object(members: map<string, Json>)

  /** `mapping.get(key)`: null when there is no such member. */
  function Get(members: map<string, Json>, key: string): Json {
    if key in members then members[key] else Null
  }

  function Merge(base: Json, overlay: Json): Json
    decreases overlay
  {
    if base.Object? && overlay.Object? then
      Object(map k | k in base.members.Keys + overlay.members.Keys ::
        if k in overlay.members then Merge(Get(base.members, k), overlay.members[k]) else base.members[k])
    else overlay
  }

  /** The loop over the overlay's members fills a copy of the base. */
  method MergeConfiguration(base: Json, overlay: Json) returns (r: Json)
    ensures r == Merge(base, overlay)
    decreases overlay
  {
    if !base.Object? || !overlay.Object? {
      return overlay;
    }
    var merged := base.members;
    var items := ListAny(overlay.members.Keys);
    MembersByIndex(items, overlay.members.Keys);
    for i := 0 to |items|
      invariant merged.Keys == base.members.Keys + set k | k in items[..i]
      invariant forall k :: k in items[..i] ==> k in overlay.members
      invariant forall k :: k in merged ==>
                  merged[k] == if k in items[..i] then Merge(Get(base.members, k), overlay.members[k])
                               else base.members[k]
    {
      var key := items[i];
      assert items[..i + 1] == items[..i] + [key];
      assert key !in items[..i];
      var value := MergeConfiguration(Get(merged, key), overlay.members[key]);
      merged := merged[key := value];
    }
    assert items[..|items|] == items;
    assert merged == Merge(base, overlay).members;
    r := Object(merged);
  }

  // ----- section 2 of RFC 7396 -----

  /** MergePatch: a null member of the patch removes the target's member. */
  function MergePatch(target: Json, patch: Json): Json
    decreases patch
  {
    if patch.Object? then
      var members := if target.Object? then target.members else map[];
      Object(map k | k in members.Keys + patch.members.Keys && !(k in patch.members && patch.members[k].Null?) ::
        if k in patch.members then MergePatch(Get(members, k), patch.members[k]) else members[k])
    else patch
  }

  /** No object in the overlay has a null member; arrays are replaced whole and do not matter. */
  predicate NoNullMembers(json: Json) {
    json.Object? ==> forall k :: k in json.members ==> !json.members[k].Null? && NoNullMembers(json.members[k])
  }

  /** On an overlay object whose base is none, the merge keeps the overlay as it stands. */
  lemma {:induction false} PatchOfNothing(target: Json, overlay: Json)
    requires !target.Object? && NoNullMembers(overlay)
    ensures MergePatch(target, overlay) == overlay
    decreases overlay
  {
    if overlay.Object? {
      forall k | k in overlay.members ensures MergePatch(Null, overlay.members[k]) == overlay.members[k] {
        PatchOfNothing(Null, overlay.members[k]);
      }
      assert MergePatch(target, overlay).members == overlay.members;
    }
  }

  /** A null member of the overlay survives the merge, where the merge patch removes it. */
  lemma {:induction false} NullMembersSetThemApart(base: Json, overlay: Json)
    requires !NoNullMembers(overlay)
    ensures Merge(base, overlay) != MergePatch(base, overlay)
    decreases overlay
  {
    var k :| k in overlay.members && (overlay.members[k].Null? || !NoNullMembers(overlay.members[k]));
    var merged, patched := Merge(base, overlay), MergePatch(base, overlay);
    var members := if base.Object? then base.members else map[];
    assert k in merged.members;
    if overlay.members[k].Null? {
      assert k !in patched.members;
    } else {
      assert patched.members[k] == MergePatch(Get(members, k), overlay.members[k]);
      NullMembersSetThemApart(Get(members, k), overlay.members[k]);
      if !base.Object? {
        NullMembersSetThemApart(Null, overlay.members[k]);
        assert Merge(Null, overlay.members[k]) == overlay.members[k];
      }
    }
  }

  lemma {:induction false} WithoutNullsItIsTheMergePatch(base: Json, overlay: Json)
    requires NoNullMembers(overlay)
    ensures Merge(base, overlay) == MergePatch(base, overlay)
    decreases overlay
  {
    if !base.Object? {
      PatchOfNothing(base, overlay);
    } else if overlay.Object? {
      forall k | k in overlay.members
        ensures Merge(Get(base.members, k), overlay.members[k]) == MergePatch(Get(base.members, k), overlay.members[k])
      {
        WithoutNullsItIsTheMergePatch(Get(base.members, k), overlay.members[k]);
      }
      assert Merge(base, overlay).members == MergePatch(base, overlay).members;
    }
  }

  /** For every base, the merge is the RFC's merge patch exactly when the overlay has no null member. */
  lemma MergeIsMergePatchExactly(base: Json, overlay: Json)
    ensures Merge(base, overlay) == MergePatch(base, overlay) <==> NoNullMembers(overlay)
  {
    if NoNullMembers(overlay) {
      WithoutNullsItIsTheMergePatch(base, overlay);
    } else {
      NullMembersSetThemApart(base, overlay);
    }
  }

  // ----- paths -----

  /** What a document has at a path of member names. */
  function At(json: Json, path: seq<string>): Option<Json>
    decreases |path|
  {
    if path == [] then Some(json)
    else if json.Object? && path[0] in json.members then At(json.members[path[0]], path[1..])
    else None
  }

  /** The overlay has something that is no object on the way to the path. */
  predicate Shadowed(overlay: Json, path: seq<string>)
    decreases |path|
  {
    path != [] && (!overlay.Object? || (path[0] in overlay.members && Shadowed(overlay.members[path[0]], path[1..])))
  }

  lemma {:induction false} ShadowedMeans(overlay: Json, path: seq<string>)
    ensures Shadowed(overlay, path) <==>
              exists k :: 0 <= k < |path| && At(overlay, path[..k]).Some? && !At(overlay, path[..k]).value.Object?
    decreases |path|
  {
    if path != [] {
      assert path[..0] == [];
      if overlay.Object? {
        if path[0] in overlay.members {
          ShadowedMeans(overlay.members[path[0]], path[1..]);
        }
        forall k | 0 < k < |path|
          ensures At(overlay, path[..k])
               == if path[0] in overlay.members then At(overlay.members[path[0]], path[1..][..k - 1]) else None
        {
          assert path[..k][1..] == path[1..][..k - 1];
        }
        if Shadowed(overlay, path) {
          var tail := path[1..];
          var k :| 0 <= k < |tail| && At(overlay.members[path[0]], tail[..k]).Some?
                   && !At(overlay.members[path[0]], tail[..k]).value.Object?;
          assert At(overlay, path[..k + 1]).Some?;
        }
      } else {
        assert At(overlay, path[..0]) == Some(overlay);
      }
    }
  }

  /**
    What the merge holds at every path: the overlay's value there, merged over the base's; nothing where the overlay
    put a leaf higher up; and everywhere else the base untouched.
   */
  lemma {:induction false} MergeAt(base: Json, overlay: Json, path: seq<string>)
    ensures At(Merge(base, overlay), path) ==
              match At(overlay, path)
              case Some(value) => Some(Merge(if At(base, path).Some? then At(base, path).value else Null, value))
              case None => if Shadowed(overlay, path) then None else At(base, path)
    decreases |path|
  {
    if path != [] && overlay.Object? {
      if path[0] in overlay.members {
        if base.Object? {
          MergeAt(Get(base.members, path[0]), overlay.members[path[0]], path[1..]);
        } else {
          MergeAt(Null, overlay.members[path[0]], path[1..]);
        }
      }
    }
  }

  /** Merging the same overlay twice changes nothing more. */
  lemma {:induction false} MergeIsIdempotent(base: Json, overlay: Json)
    ensures Merge(Merge(base, overlay), overlay) == Merge(base, overlay)
    decreases overlay
  {
    if overlay.Object? {
      var once := Merge(base, overlay);
      forall k | k in overlay.members
        ensures Merge(Get(once.members, k), overlay.members[k]) == once.members[k]
      {
        if base.Object? {
          MergeIsIdempotent(Get(base.members, k), overlay.members[k]);
        } else {
          MergeIsIdempotent(Null, overlay.members[k]);
        }
      }
      assert Merge(once, overlay).members == once.members;
    }
  }
}
