/**
 The caught-Pokémon registry of internal/common/common.go.

 `CaughtPokemons` wraps the map from a Pokémon's name to its record that every
 copy of a `Config` shares (a Go map is a reference); `SavePokemon` has a value
 receiver, so it can change that shared map and nothing else. The mutex is not
 modelled: each call is one atomic step.
 */
module Common {
  import PokeCache

  datatype Pokemon = Pokemon(
    name: string,
    height: int,
    weight: int,
    stats: map<string, int>,
    types: seq<string>)

  class CaughtPokemons {
    var pokemons: map<string, Pokemon>

    constructor ()
      ensures pokemons == map[]
    {
      pokemons := map[];
    }
  }

  class Config {
    const cache: PokeCache.Cache
    var previous: string
    var next: string
    const caughtPokemons: CaughtPokemons

    constructor (cache: PokeCache.Cache, previous: string, next: string, caughtPokemons: CaughtPokemons)
      ensures this.cache == cache && this.previous == previous && this.next == next
      ensures this.caughtPokemons == caughtPokemons
    {
      this.cache := cache;
      this.previous := previous;
      this.next := next;
      this.caughtPokemons := caughtPokemons;
    }

    /**
     Upsert by name into the shared registry: the record is filed under its
     name, every other name keeps its record, at most one name is added, and
     neither the cursors nor the response cache change.
     */
    method SavePokemon(pokemon: Pokemon)
      modifies caughtPokemons
      ensures caughtPokemons.pokemons == old(caughtPokemons.pokemons)[pokemon.name := pokemon]
      ensures pokemon.name in caughtPokemons.pokemons && caughtPokemons.pokemons[pokemon.name] == pokemon
      ensures forall n :: n != pokemon.name && n in old(caughtPokemons.pokemons) ==>
        n in caughtPokemons.pokemons && caughtPokemons.pokemons[n] == old(caughtPokemons.pokemons)[n]
      ensures caughtPokemons.pokemons.Keys == old(caughtPokemons.pokemons.Keys) + {pokemon.name}
      ensures |caughtPokemons.pokemons| <= |old(caughtPokemons.pokemons)| + 1
      ensures unchanged(this) && unchanged(cache)
    {
      caughtPokemons.pokemons := caughtPokemons.pokemons[pokemon.name := pokemon];
    }
  }

  /**
   Saving two records under one name into an empty registry leaves one entry,
   the later record; a name never saved is not found.
   */
  method SaveTwiceScenario(first: Pokemon, second: Pokemon, other: string)
    returns (kept: Pokemon, size: nat, otherFound: bool)
    requires first.name == second.name && other != first.name
    ensures kept == second && size == 1 && !otherFound
  {
    var cache := new PokeCache.Cache(1);
    var registry := new CaughtPokemons();
    var conf := new Config(cache, "", "", registry);
    conf.SavePokemon(first);
    conf.SavePokemon(second);
    kept := registry.pokemons[second.name];
    size := |registry.pokemons|;
    otherFound := other in registry.pokemons;
  }
}
