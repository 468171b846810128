/**
 * Materials attached to scene-graph nodes, and the effect of a run of
 * `obj.material = …` assignments on the material of every node.
 */
module Materials {
  import opened Wrappers
  import opened SceneTree

  /** A texture handle: the `serial`-th texture load request, made for image `file`. */
  datatype Texture = Texture(serial: nat, file: string)

  /** A node's material: one authored in the asset (opaque here), or a Lambert material with a colour and an optional texture map. */
  datatype Material = Authored(key: nat) | Lambert(color: nat, texture: Option<Texture>)

  /** The colour 0xffffffee that every replacement material in index.js is given. */
  const CardColor: nat := 0xffff_ffee

  /** `new MeshLambertMaterial({ color: 0xffffffee })`. */
  function PlainMaterial(): Material
  {
    Lambert(CardColor, None)
  }

  /** `new MeshLambertMaterial({ color: 0xffffffee, opacity: 1.0, map: t })`. */
  function TexturedMaterial(t: Texture): Material
  {
    Lambert(CardColor, Some(t))
  }

  /** One assignment `node.material = material` to the node with identity `id`. */
  datatype Write = Write(id: NodeId, material: Material)

  /** The materials after performing the assignments `ws` in order, starting from `m`. */
  function AssignAll(m: map<NodeId, Material>, ws: seq<Write>): map<NodeId, Material>
  {
    if ws == [] then m
    else AssignAll(m, ws[..|ws| - 1])[ws[|ws| - 1].id := ws[|ws| - 1].material]
  }

  /** The identities of the nodes that the assignments touch. */
  function WrittenIds(ws: seq<Write>): set<NodeId>
  {
    set k | 0 <= k < |ws| :: ws[k].id
  }

  /** Appending one assignment performs it last. */
  lemma AssignAllSnoc(m: map<NodeId, Material>, ws: seq<Write>, w: Write)
    ensures AssignAll(m, ws + [w]) == AssignAll(m, ws)[w.id := w.material]
  {
    assert (ws + [w])[..|ws|] == ws;
  }

  /** Nothing else changes: only the touched nodes gain or change a material. */
  lemma {:induction false} AssignAllFrame(m: map<NodeId, Material>, ws: seq<Write>)
    ensures AssignAll(m, ws).Keys == m.Keys + WrittenIds(ws)
    ensures AssignAll(m, ws) - WrittenIds(ws) == m - WrittenIds(ws)
  {
    if ws != [] {
      var init := ws[..|ws| - 1];
      var w := ws[|ws| - 1];
      AssignAllFrame(m, init);
      assert ws == init + [w];
      assert WrittenIds(ws) == WrittenIds(init) + {w.id} by {
        forall id | id in WrittenIds(ws) ensures id in WrittenIds(init) + {w.id} {
          var k :| 0 <= k < |ws| && ws[k].id == id;
          if k < |init| { assert init[k] == ws[k]; }
        }
        forall id | id in WrittenIds(init) ensures id in WrittenIds(ws) {
          var k :| 0 <= k < |init| && init[k].id == id;
          assert ws[k] == init[k];
        }
      }
      var prev := AssignAll(m, init);
      var ids := WrittenIds(ws);
      assert AssignAll(m, ws) == prev[w.id := w.material];
      assert (prev - WrittenIds(init)) - {w.id} == (m - WrittenIds(init)) - {w.id};
      assert prev[w.id := w.material] - ids == (prev - WrittenIds(init)) - {w.id};
      assert m - ids == (m - WrittenIds(init)) - {w.id};
    }
  }

  /** A node assigned at position `k`, and afterwards at most re-assigned the same material, ends with that material. */
  lemma {:induction false} AssignAllLastWrite(m: map<NodeId, Material>, ws: seq<Write>, k: nat)
    requires k < |ws|
    requires forall j :: k < j < |ws| && ws[j].id == ws[k].id ==> ws[j].material == ws[k].material
    ensures ws[k].id in AssignAll(m, ws) && AssignAll(m, ws)[ws[k].id] == ws[k].material
  {
    if k < |ws| - 1 {
      var init := ws[..|ws| - 1];
      assert forall j :: k < j < |init| ==> init[j] == ws[j];
      AssignAllLastWrite(m, init, k);
      assert ws[|ws| - 1].id == ws[k].id ==> ws[|ws| - 1].material == ws[k].material;
    }
  }

  /** When every assignment stores the same material, every touched node ends with it, whatever the order. */
  lemma {:induction false} AssignAllUniform(m: map<NodeId, Material>, ws: seq<Write>, mat: Material)
    requires forall k :: 0 <= k < |ws| ==> ws[k].material == mat
    ensures forall k :: 0 <= k < |ws| ==> ws[k].id in AssignAll(m, ws) && AssignAll(m, ws)[ws[k].id] == mat
  {
    if ws != [] {
      var init := ws[..|ws| - 1];
      AssignAllUniform(m, init, mat);
      forall k | 0 <= k < |init| ensures init[k] == ws[k] { }
    }
  }

  /** A node the assignments do not touch keeps its material, and has one afterwards exactly when it had one before. */
  lemma AssignAllSpares(m: map<NodeId, Material>, ws: seq<Write>, id: NodeId)
    requires id !in WrittenIds(ws)
    ensures id in AssignAll(m, ws) <==> id in m
    ensures id in m ==> AssignAll(m, ws)[id] == m[id]
  {
    AssignAllFrame(m, ws);
    assert id in AssignAll(m, ws) - WrittenIds(ws) <==> id in m - WrittenIds(ws);
  }

  /** A step that changes only the nodes `xs` changes only the nodes of any larger set `ys`. */
  lemma MinusWiden(m: map<NodeId, Material>, r: map<NodeId, Material>, xs: set<NodeId>, ys: set<NodeId>)
    requires r - xs == m - xs && xs <= ys
    ensures r - ys == m - ys
  {
    MinusCompose(m, r, r, xs, ys);
    assert xs + ys == ys;
  }

  /** Two steps that each change only their own set of nodes together change only the union. */
  lemma MinusCompose(m: map<NodeId, Material>, m1: map<NodeId, Material>, r: map<NodeId, Material>, xs: set<NodeId>, ys: set<NodeId>)
    requires m1 - xs == m - xs && r - ys == m1 - ys
    ensures r - (xs + ys) == m - (xs + ys)
  {
    forall id | id !in xs + ys
      ensures (id in r <==> id in m) && (id in r ==> r[id] == m[id])
    {
      assert id in r <==> id in r - ys;
      assert id in m1 <==> id in m1 - ys;
      assert id in m1 <==> id in m1 - xs;
      assert id in m <==> id in m - xs;
      if id in r {
        assert r[id] == (r - ys)[id] == (m1 - ys)[id] == m1[id];
        assert m1[id] == (m1 - xs)[id] == (m - xs)[id] == m[id];
      }
    }
  }
}
