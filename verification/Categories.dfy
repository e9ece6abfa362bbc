/** The statistics categories the model names; every other category is `Other`. */
module Categories {

  datatype Category =
    | Score | Time | Games | Kills | Deaths | Arrests
    | SpmRatio | SprRatio | KdRatio
    | TopKillStreak | TopArrestStreak
    | CoopScore | CoopGames | CoopTime
    | WeaponShots | WeaponHitRatio | WeaponKillRatio | WeaponTeamhitRatio
    | GrenadeShots | GrenadeHitRatio | GrenadeTeamhitRatio
    | Other(name: string)

  /** What qualifies a player for the ratio leaderboards. */
  const MIN_TIME := 36000.0
  const MIN_GAMES := 100.0
  const MIN_KILLS := 500.0
  const MIN_WEAPON_SHOTS := 1000.0
  const MIN_GRENADE_SHOTS := 100.0

  /** A non-cooperative game with fewer players does not count towards statistics. */
  const MIN_PLAYERS := 10
}
