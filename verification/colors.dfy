/** The colour code an action is drawn with on the facility grid. */
module Colors {
  import opened Outcomes
  import opened RoomEnv

  /** 0 grey (all off), 1 yellow (light only), 2 navy (fan only),
      3 blue (light and fan); the two fan speeds share a colour. */
  const Palette: seq<nat> := [0, 1, 2, 3, 2, 3]

  /** `action_to_color`: the colour of an action; numbers outside the table have none. */
  function ActionToColor(action: int): (c: Option<nat>)
    ensures c.Some? <==> 0 <= action < 6
    ensures c.Some? ==> c.value <= 3
    ensures c.Some? ==>
              var st := Decode(action).value;
              c.value == st.light + (if st.fan > 0 then 2 else 0)
  {
    if 0 <= action < |Palette| then Some(Palette[action]) else None
  }
}
