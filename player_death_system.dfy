/**
 * The player-death stage (src/systems/tick_systems/player_death_system.rs).
 *
 * Once the player's health reaches 0 or below, the game state becomes
 * `Died`. Health is only read.
 */
module PlayerDeathSystem {
  import opened Resources

  /** The game state the stage leaves behind, given the health and the state before. */
  predicate DeathEnforced(playerHealth: PlayerHealth, state: GameState, state': GameState)
  {
    (playerHealth.health <= 0 ==> state' == GameState.Died) &&
    (playerHealth.health > 0 ==> state' == state)
  }

  /** `player_death`. */
  method PlayerDeath(playerHealth: PlayerHealth, state: GameState) returns (state': GameState)
    ensures DeathEnforced(playerHealth, state, state')
  {
    state' := state;
    if playerHealth.health <= 0 {
      state' := GameState.Died;
    }
  }

  /**
   * Running the stage twice with the same health gives what running it once
   * gave, and a player who died stays dead.
   */
  lemma DeathIsIdempotent(playerHealth: PlayerHealth, s0: GameState, s1: GameState, s2: GameState)
    requires DeathEnforced(playerHealth, s0, s1) && DeathEnforced(playerHealth, s1, s2)
    ensures s2 == s1
    ensures s0 == GameState.Died ==> s1 == GameState.Died
  {
  }
}
